/** The queue under concurrent use: every lock-protected section and every channel operation is one step. */
module QueueProtocol {
  import opened Options
  import opened Ordering
  import opened Scheduler

  /** Poppers are identified by number; `holding` are those that received a token and have yet to take an item. */
  datatype Shared = Shared(items: seq<Item>, cap: nat, closed: bool, tokens: nat, holding: set<nat>)

  datatype Event =
    | Pushed(item: Item, now: int)
    | Woken(popper: nat)
    | Took(popper: nat)
    | Closed
    | SawClosed(popper: nat)

  /** The push makes the list longer, so it sends a token while it holds the mutex. */
  predicate Sends(s: Shared, item: Item, now: int)
  {
    |Offer(s.items, s.cap, s.closed, item, now).items| > |s.items|
  }

  /** A send goes through at once when the channel is open and its buffer, as large as the queue, has room. */
  predicate CanSend(s: Shared)
  {
    !s.closed && s.tokens < s.cap
  }

  ghost predicate Step(s: Shared, e: Event, s': Shared)
  {
    match e
    case Pushed(item, now) =>
      && (Sends(s, item, now) ==> CanSend(s))
      && s' == s.(items := Offer(s.items, s.cap, s.closed, item, now).items,
                  tokens := s.tokens + if Sends(s, item, now) then 1 else 0)
    case Woken(p) =>
      p !in s.holding && s.tokens > 0 && s' == s.(tokens := s.tokens - 1, holding := s.holding + {p})
    case Took(p) =>
      && p in s.holding
      && s' == s.(items := if s.items == [] then [] else s.items[1..], holding := s.holding - {p})
    case Closed =>
      s' == s.(closed := true)
    case SawClosed(p) =>
      p !in s.holding && s.closed && s.tokens == 0 && s' == s
  }

  ghost predicate Initial(s: Shared)
  {
    s.items == [] && s.cap > 0 && !s.closed && s.tokens == 0 && s.holding == {}
  }

  /** Every item is matched by a buffered token or by a popper that already took one. */
  ghost predicate Balanced(s: Shared)
  {
    && s.cap > 0 && |s.items| <= s.cap && Sorted(BetterThan, s.items)
    && |s.items| == s.tokens + |s.holding|
  }

  ghost predicate StepAt(states: seq<Shared>, events: seq<Event>, i: nat)
    requires i < |events| && |states| == |events| + 1
  {
    Step(states[i], events[i], states[i + 1])
  }

  ghost predicate Run(states: seq<Shared>, events: seq<Event>)
  {
    && |states| == |events| + 1 && Initial(states[0])
    && forall i {:trigger StepAt(states, events, i)} :: 0 <= i < |events| ==> StepAt(states, events, i)
  }

  lemma StepBalanced(s: Shared, e: Event, s': Shared)
    requires Balanced(s) && Step(s, e, s')
    ensures Balanced(s')
  {
    match e
    case Pushed(item, now) => OfferKeepsOrder(s.items, s.cap, s.closed, item, now);
    case Woken(p) =>
    case Took(p) =>
    case Closed =>
    case SawClosed(p) =>
  }

  /** A push with its send, as the method performs it. */
  lemma PushIsStep(s: Shared, o: Outcome, item: Item, now: int, s': Shared)
    requires Balanced(s) && o == Offer(s.items, s.cap, s.closed, item, now)
    requires s' == s.(items := o.items, tokens := s.tokens + if |o.items| > |s.items| then 1 else 0)
    ensures Step(s, Pushed(item, now), s') && Balanced(s')
  {
    OfferKeepsOrder(s.items, s.cap, s.closed, item, now);
  }

  lemma {:induction false} RunBalanced(states: seq<Shared>, events: seq<Event>, i: nat)
    requires Run(states, events) && i < |states|
    ensures Balanced(states[i])
  {
    if i == 0 {
    } else {
      RunBalanced(states, events, i - 1);
      assert StepAt(states, events, i - 1);
      StepBalanced(states[i - 1], events[i - 1], states[i]);
    }
  }

  /**
   * In every state of every interleaving: a push that must send a token never blocks on the channel it holds the
   * mutex for; a woken popper finds an item; and when a popper may be told the queue is closed, no buffered token
   * is left and each remaining item already belongs to a woken popper.
   */
  lemma QueueSafety(states: seq<Shared>, events: seq<Event>, i: nat)
    requires Run(states, events) && i < |states|
    ensures var s := states[i];
            && (forall item, now :: Sends(s, item, now) ==> CanSend(s))
            && (s.holding != {} ==> s.items != [])
            && (s.closed && s.tokens == 0 ==> |s.items| == |s.holding|)
            && (s.closed && s.tokens == 0 && s.holding == {} ==> s.items == [])
            && s.tokens <= s.cap
  {
    RunBalanced(states, events, i);
    var s := states[i];
    forall item, now | Sends(s, item, now)
      ensures CanSend(s)
    {
      OfferKeepsOrder(s.items, s.cap, s.closed, item, now);
    }
    if s.holding != {} {
      var p :| p in s.holding;
      assert |s.holding| > 0;
    }
  }

  /** Closed, with no token left: a state the queue does not leave. */
  lemma {:induction false} StaysSpent(states: seq<Shared>, events: seq<Event>, i: nat, j: nat)
    requires Run(states, events) && i <= j < |states| && states[i].closed && states[i].tokens == 0
    ensures states[j].closed && states[j].tokens == 0
    decreases j
  {
    if i < j {
      StaysSpent(states, events, i, j - 1);
      assert StepAt(states, events, j - 1);
    }
  }

  /**
   * When a popper is told that the queue is closed, every item left belongs to another popper that is already woken;
   * from then on no item is put in and nobody is woken.
   */
  lemma ClosedIsFinal(states: seq<Shared>, events: seq<Event>, i: nat, j: nat)
    requires Run(states, events) && i < |events| && events[i].SawClosed? && i <= j < |events|
    ensures |states[i].items| == |states[i].holding| && events[i].popper !in states[i].holding
    ensures !events[j].Woken? && |states[j + 1].items| <= |states[j].items|
    ensures events[j].Pushed? ==> states[j + 1] == states[j]
  {
    assert StepAt(states, events, i);
    RunBalanced(states, events, i);
    StaysSpent(states, events, i, j);
    assert StepAt(states, events, j);
  }

  // ----- nothing is stranded

  lemma RunExtend(states: seq<Shared>, events: seq<Event>, e: Event, s: Shared)
    requires Run(states, events) && Step(states[|events|], e, s)
    ensures Run(states + [s], events + [e])
  {
    forall i | 0 <= i < |events| + 1
      ensures StepAt(states + [s], events + [e], i)
    {
      assert i < |events| ==> StepAt(states, events, i);
    }
  }

  /** A run that goes on with poppers alone. */
  ghost predicate PopsOn(states: seq<Shared>, events: seq<Event>, states': seq<Shared>, events': seq<Event>)
  {
    && Run(states', events') && states <= states' && events <= events'
    && forall k :: |events| <= k < |events'| ==> events'[k].Woken? || events'[k].Took?
  }

  /** While an item is there, a popper can come and take the first one. */
  lemma PopOne(states: seq<Shared>, events: seq<Event>) returns (states': seq<Shared>, events': seq<Event>)
    requires Run(states, events) && states[|events|].items != []
    ensures PopsOn(states, events, states', events')
    ensures states'[|events'|].items == states[|events|].items[1..]
  {
    states', events' := states, events;
    var s := states[|events|];
    RunBalanced(states, events, |events|);
    var p := 0;
    if s.holding == {} {
      var woken := s.(tokens := s.tokens - 1, holding := s.holding + {p});
      RunExtend(states, events, Woken(p), woken);
      states', events', s := states + [woken], events + [Woken(p)], woken;
    } else {
      p :| p in s.holding;
    }
    var took := s.(items := s.items[1..], holding := s.holding - {p});
    RunExtend(states', events', Took(p), took);
    states', events' := states' + [took], events' + [Took(p)];
  }

  /** From every reachable state the poppers alone can empty the queue, closed or not. */
  lemma {:induction false} CanBeEmptied(states: seq<Shared>, events: seq<Event>)
    returns (states': seq<Shared>, events': seq<Event>)
    requires Run(states, events)
    ensures PopsOn(states, events, states', events') && states'[|events'|].items == []
    decreases |states[|events|].items|
  {
    if states[|events|].items == [] {
      states', events' := states, events;
    } else {
      var more, es := PopOne(states, events);
      states', events' := CanBeEmptied(more, es);
      assert forall k :: |events| <= k < |es| ==> events'[k] == es[k];
    }
  }

  // ----- nothing is lost

  /** The item a step puts in. */
  ghost function PutIn(s: Shared, e: Event): multiset<Item>
  {
    if e.Pushed? && Offer(s.items, s.cap, s.closed, e.item, e.now).accepted then multiset{e.item} else multiset{}
  }

  /** The item a step takes out: the evicted one, or the popped one. */
  ghost function TakenOut(s: Shared, e: Event): multiset<Item>
  {
    if e.Pushed? && Offer(s.items, s.cap, s.closed, e.item, e.now).evicted.Some?
    then multiset{Offer(s.items, s.cap, s.closed, e.item, e.now).evicted.value}
    else if e.Took? && s.items != [] then multiset{s.items[0]}
    else multiset{}
  }

  ghost function Inflow(states: seq<Shared>, events: seq<Event>): nat -> multiset<Item>
  {
    (i: nat) => if i < |states| && i < |events| then PutIn(states[i], events[i]) else multiset{}
  }

  ghost function Outflow(states: seq<Shared>, events: seq<Event>): nat -> multiset<Item>
  {
    (i: nat) => if i < |states| && i < |events| then TakenOut(states[i], events[i]) else multiset{}
  }

  ghost function Contents(states: seq<Shared>): nat -> multiset<Item>
  {
    (i: nat) => if i < |states| then multiset(states[i].items) else multiset{}
  }

  ghost function Total(flow: nat -> multiset<Item>, n: nat): multiset<Item>
  {
    if n == 0 then multiset{} else Total(flow, n - 1) + flow(n - 1)
  }

  /** What was there and came in at `i` is there afterwards or went out. */
  ghost predicate BalancedAt(ins: nat -> multiset<Item>, outs: nat -> multiset<Item>,
                             here: nat -> multiset<Item>, i: nat)
  {
    here(i) + ins(i) == here(i + 1) + outs(i)
  }

  lemma {:induction false} LedgerBalances(ins: nat -> multiset<Item>, outs: nat -> multiset<Item>,
                                          here: nat -> multiset<Item>, n: nat)
    requires here(0) == multiset{} && forall i: nat :: i < n ==> BalancedAt(ins, outs, here, i)
    ensures Total(ins, n) == Total(outs, n) + here(n)
  {
    if n == 0 {
    } else {
      LedgerBalances(ins, outs, here, n - 1);
      assert BalancedAt(ins, outs, here, n - 1);
      Shift(Total(ins, n - 1), Total(outs, n - 1), here(n - 1), ins(n - 1), here(n), outs(n - 1));
    }
  }

  /** What went in is what came out plus what is still there. */
  lemma Conservation(states: seq<Shared>, events: seq<Event>, n: nat)
    requires Run(states, events) && n <= |events|
    ensures Total(Inflow(states, events), n) == Total(Outflow(states, events), n) + multiset(states[n].items)
  {
    var ins, outs, here := Inflow(states, events), Outflow(states, events), Contents(states);
    forall i: nat | i < n
      ensures BalancedAt(ins, outs, here, i)
    {
      LedgerStep(states, events, i);
    }
    LedgerBalances(ins, outs, here, n);
  }

  lemma LedgerStep(states: seq<Shared>, events: seq<Event>, i: nat)
    requires Run(states, events) && i < |events|
    ensures BalancedAt(Inflow(states, events), Outflow(states, events), Contents(states), i)
  {
    RunConserves(states, events, i);
  }

  lemma RunConserves(states: seq<Shared>, events: seq<Event>, i: nat)
    requires Run(states, events) && i < |events|
    ensures multiset(states[i].items) + PutIn(states[i], events[i]) ==
            multiset(states[i + 1].items) + TakenOut(states[i], events[i])
  {
    assert StepAt(states, events, i);
    StepConserves(states[i], events[i], states[i + 1]);
  }

  lemma Shift(total: multiset<Item>, gone: multiset<Item>, here: multiset<Item>, put: multiset<Item>,
              left: multiset<Item>, taken: multiset<Item>)
    requires total == gone + here && here + put == left + taken
    ensures total + put == gone + taken + left
  {
    assert total + put == gone + (here + put);
  }

  lemma StepConserves(s: Shared, e: Event, s': Shared)
    requires Step(s, e, s')
    ensures multiset(s.items) + PutIn(s, e) == multiset(s'.items) + TakenOut(s, e)
  {
    match e
    case Pushed(item, now) => OfferConserves(s, item, now);
    case Took(p) => assert s.items != [] ==> s.items == [s.items[0]] + s.items[1..];
    case Woken(p) =>
    case Closed =>
    case SawClosed(p) =>
  }

  lemma OfferConserves(s: Shared, item: Item, now: int)
    ensures multiset(s.items) + PutIn(s, Pushed(item, now)) ==
            multiset(Offer(s.items, s.cap, s.closed, item, now).items) + TakenOut(s, Pushed(item, now))
  {
    var out := Offer(s.items, s.cap, s.closed, item, now);
    if out.evicted.Some? {
      EvictionConserves(s, item, now);
    } else if out.accepted {
      assert out.items == Place(s.items, item);
    } else {
      assert out.items == s.items;
    }
  }

  lemma EvictionConserves(s: Shared, item: Item, now: int)
    requires Offer(s.items, s.cap, s.closed, item, now).evicted.Some?
    ensures multiset(s.items) + multiset{item} ==
            multiset(Offer(s.items, s.cap, s.closed, item, now).items)
            + multiset{Offer(s.items, s.cap, s.closed, item, now).evicted.value}
    ensures Offer(s.items, s.cap, s.closed, item, now).accepted
  {
    var front, worst := s.items[..|s.items| - 1], s.items[|s.items| - 1];
    assert s.items == front + [worst];
    var placed := Place(front, item);
    assert multiset(placed) == multiset(front) + multiset{item};
    assert Offer(s.items, s.cap, s.closed, item, now) == Outcome(placed, Some(worst), true, NoError);
  }

  // ----- the queue object

  class Queue {
    var items: seq<Item>
    const cap: nat
    var closed: bool
    var tokens: nat
    ghost var holding: set<nat>

    ghost function State(): Shared
      reads this
    {
      Shared(items, cap, closed, tokens, holding)
    }

    constructor (capacity: int)
      ensures Initial(State()) && cap == if capacity <= 0 then 1 else capacity
    {
      cap := if capacity <= 0 then 1 else capacity;
      items, closed, tokens, holding := [], false, 0, {};
    }

    /** The binary search behind the insertion: the first item that is not better. */
    method Search(item: Item) returns (idx: nat)
      requires Sorted(BetterThan, items)
      ensures idx <= |items|
      ensures forall i :: 0 <= i < idx ==> BetterThan(items[i], item)
      ensures forall i :: idx <= i < |items| ==> !BetterThan(items[i], item)
    {
      idx := 0;
      var hi := |items|;
      BetterThanIsStrictWeak();
      while idx < hi
        invariant idx <= hi <= |items|
        invariant forall i :: 0 <= i < idx ==> BetterThan(items[i], item)
        invariant forall i :: hi <= i < |items| ==> !BetterThan(items[i], item)
      {
        var mid := (idx + hi) / 2;
        if BetterThan(items[mid], item) {
          forall i | 0 <= i < mid
            ensures BetterThan(items[i], item)
          {
            assert !BetterThan(items[mid], items[i]);
          }
          idx := mid + 1;
        } else {
          forall i | mid < i < |items|
            ensures !BetterThan(items[i], item)
          {
            assert !BetterThan(items[i], items[mid]);
          }
          hi := mid;
        }
      }
    }

    /** Opens a gap where the search says and puts the item there. */
    method InsertItem(item: Item)
      requires Sorted(BetterThan, items)
      modifies `items
      ensures items == Place(old(items), item)
    {
      var idx := Search(item);
      PlaceAt(items, item, idx);
      items := items[..idx] + [item] + items[idx..];
    }

    /** The accepting part of Push: makes room if it must, inserts, and wakes a popper if the list grew. */
    method Admit(item: Item, ghost now: int) returns (evicted: Option<Item>)
      requires Balanced(State()) && !closed && !Stale(item, now)
      requires |items| >= cap ==> BetterThan(item, items[|items| - 1])
      modifies this`items, this`tokens
      ensures Outcome(items, evicted, true, NoError) == Offer(old(items), cap, false, item, now)
      ensures tokens == old(tokens) + if |items| > old(|items|) then 1 else 0
    {
      evicted := None;
      var prevLen := |items|;
      if |items| >= cap {
        evicted := Some(items[|items| - 1]);
        items := items[..|items| - 1];
      }
      InsertItem(item);
      if |items| > prevLen {
        tokens := tokens + 1;
      }
    }

    method Push(item: Item, now: int) returns (evicted: Option<Item>, accepted: bool, error: PushError)
      requires Balanced(State())
      modifies this
      ensures Outcome(items, evicted, accepted, error) == Offer(old(items), cap, old(closed), item, now)
      ensures error == QueueClosed <==> old(closed)
      ensures error == StaleWork <==> !old(closed) && (item.deadlineAt == ZERO_TIME || item.deadlineAt < now)
      ensures Step(old(State()), Pushed(item, now), State()) && Balanced(State())
    {
      ghost var before := State();
      evicted, accepted, error := None, false, NoError;
      if closed {
        error := QueueClosed;
      } else if Stale(item, now) {
        error := StaleWork;
      } else if |items| >= cap && !BetterThan(item, items[|items| - 1]) {
        error := QueueOverflow;
      } else {
        evicted := Admit(item, now);
        accepted := true;
      }
      PushIsStep(before, Outcome(items, evicted, accepted, error), item, now, State());
    }

    /** The receive in Pop, when it does not block: a token, or the news that the channel is closed and empty. */
    method Receive(popper: nat) returns (ok: bool)
      requires Balanced(State()) && popper !in holding && (tokens > 0 || closed)
      modifies this
      ensures Balanced(State())
      ensures ok ==> Step(old(State()), Woken(popper), State())
      ensures !ok ==> Step(old(State()), SawClosed(popper), State())
    {
      ghost var before := State();
      if tokens > 0 {
        tokens := tokens - 1;
        holding := holding + {popper};
        StepBalanced(before, Woken(popper), State());
        return true;
      }
      return false;
    }

    /** The locked part of Pop; the list is never empty here, so the loop in the source never turns. */
    method Take(popper: nat) returns (item: Item)
      requires Balanced(State()) && popper in holding
      modifies this
      ensures old(items) == [item] + items
      ensures Step(old(State()), Took(popper), State()) && Balanced(State())
    {
      ghost var before := State();
      assert |holding| > 0;
      item := items[0];
      items := items[1..];
      holding := holding - {popper};
      StepBalanced(before, Took(popper), State());
    }

    method Close()
      requires Balanced(State())
      modifies this
      ensures Step(old(State()), Event.Closed, State()) && Balanced(State())
    {
      closed := true;
    }
  }
}

/** Greedy block selection over sender chains: the heap-driven loop and the plain rescanning it stands for. */
module Selection {
  import opened Collections
  import opened Ordering
  import opened Sums
  import opened Transactions
  import opened CandidateHeap

  type Chains = map<string, seq<Tx>>

  /** The position of the head of each chain still in play. */
  type Heads = map<string, nat>

  ghost predicate HeadsOk(chains: Chains, heads: Heads)
  {
    forall s :: s in heads ==> s in chains && heads[s] < |chains[s]|
  }

  ghost function HeadTx(chains: Chains, heads: Heads, s: string): Tx
    requires HeadsOk(chains, heads) && s in heads
  {
    chains[s][heads[s]]
  }

  ghost function HeadOf(chains: Chains, heads: Heads, s: string): Candidate
    requires HeadsOk(chains, heads) && s in heads
  {
    Candidate(s, heads[s], chains[s][heads[s]])
  }

  /** The candidates the heap must hold. */
  ghost function HeadSet(chains: Chains, heads: Heads): set<Candidate>
    requires HeadsOk(chains, heads)
  {
    set s | s in heads :: HeadOf(chains, heads, s)
  }

  /** No head ranks before the head of `s`. */
  ghost predicate IsFirst(chains: Chains, heads: Heads, s: string)
    requires HeadsOk(chains, heads)
  {
    s in heads && forall t :: t in heads ==> !Before(HeadTx(chains, heads, t), HeadTx(chains, heads, s))
  }

  /** How far selection has come; `owners` names the chain each selected transaction came from. */
  datatype Progress = Progress(heads: Heads, remaining: U64, selected: seq<Tx>, rejected: seq<Tx>,
                               ranking: seq<string>, owners: seq<string>)

  // ----- one round

  /** Takes the head of `s` if its gas fits; otherwise the whole chain is out. */
  ghost function Round(chains: Chains, p: Progress, s: string): Progress
    requires HeadsOk(chains, p.heads) && s in p.heads
  {
    var tx := HeadTx(chains, p.heads, s);
    if tx.gasLimit > p.remaining then
      p.(heads := p.heads - {s}, rejected := p.rejected + [tx], ranking := p.ranking + [tx.hash])
    else
      p.(heads := if p.heads[s] + 1 < |chains[s]| then p.heads[s := p.heads[s] + 1] else p.heads - {s},
         remaining := p.remaining - tx.gasLimit,
         selected := p.selected + [tx], ranking := p.ranking + [tx.hash], owners := p.owners + [s])
  }

  ghost function ChainLeft(chains: Chains, heads: Heads): string -> int
  {
    s => if s in heads && s in chains then |chains[s]| - heads[s] else 0
  }

  /** The transactions still in play. */
  ghost function Left(chains: Chains, heads: Heads): int
  {
    Sum(ChainLeft(chains, heads), chains.Keys)
  }

  lemma {:induction false} SumNonNegative(f: string -> int, s: set<string>)
    requires forall x :: x in s ==> f(x) >= 0
    ensures Sum(f, s) >= 0
    decreases s
  {
    if s == {} {
    } else {
      var x :| x in s;
      SumRemove(f, s, x);
      SumNonNegative(f, s - {x});
    }
  }

  lemma RoundShrinks(chains: Chains, p: Progress, s: string)
    requires HeadsOk(chains, p.heads) && s in p.heads
    ensures HeadsOk(chains, Round(chains, p, s).heads)
    ensures 0 <= Left(chains, Round(chains, p, s).heads) < Left(chains, p.heads)
  {
    var q := Round(chains, p, s);
    var f, g := ChainLeft(chains, p.heads), ChainLeft(chains, q.heads);
    SumUpdate(f, g, chains.Keys, s);
    SumNonNegative(g, chains.Keys);
  }

  // ----- rescanning every round

  lemma {:induction false} FirstExists(chains: Chains, heads: Heads, among: set<string>) returns (s: string)
    requires HeadsOk(chains, heads) && among != {} && among <= heads.Keys
    ensures s in among && forall t :: t in among ==> !Before(HeadTx(chains, heads, t), HeadTx(chains, heads, s))
    decreases among
  {
    BeforeIsStrictWeak();
    var x :| x in among;
    s := x;
    if among != {x} {
      var rest := FirstExists(chains, heads, among - {x});
      if Before(HeadTx(chains, heads, rest), HeadTx(chains, heads, x)) {
        s := rest;
      }
    }
  }

  /** The sender whose head a scan over all heads picks. */
  ghost function Scan(chains: Chains, heads: Heads): (s: string)
    requires HeadsOk(chains, heads) && heads.Keys != {}
    ensures IsFirst(chains, heads, s)
  {
    assert exists s :: IsFirst(chains, heads, s) by {
      var w := FirstExists(chains, heads, heads.Keys);
      assert IsFirst(chains, heads, w);
    }
    var s :| IsFirst(chains, heads, s);
    s
  }

  /** The naive algorithm: scan all heads, play a round, repeat. */
  ghost function Rescan(chains: Chains, p: Progress, maxTx: nat): Progress
    requires HeadsOk(chains, p.heads)
    decreases Left(chains, p.heads)
  {
    if p.heads.Keys == {} || |p.selected| >= maxTx then p
    else
      var s := Scan(chains, p.heads);
      RoundShrinks(chains, p, s);
      Rescan(chains, Round(chains, p, s), maxTx)
  }

  /** No two transactions of the pool share a hash. */
  ghost predicate DistinctHashes(chains: Chains)
  {
    forall s, t, i, j | s in chains && t in chains && 0 <= i < |chains[s]| && 0 <= j < |chains[t]| ::
      chains[s][i].hash == chains[t][j].hash ==> s == t && i == j
  }

  lemma FirstIsUnique(chains: Chains, heads: Heads, s: string, t: string)
    requires DistinctHashes(chains) && HeadsOk(chains, heads)
    requires IsFirst(chains, heads, s) && IsFirst(chains, heads, t)
    ensures s == t
  {
    CompareTxIsTotal(HeadTx(chains, heads, s), HeadTx(chains, heads, t));
  }

  // ----- what selection keeps

  /** The selected transactions of one sender, in order. */
  ghost function Of(selected: seq<Tx>, owners: seq<string>, s: string): seq<Tx>
    requires |selected| == |owners|
  {
    if selected == [] then []
    else
      Of(selected[..|selected| - 1], owners[..|selected| - 1], s)
      + if owners[|selected| - 1] == s then [selected[|selected| - 1]] else []
  }

  /** Where the chain of `s` stands: a prefix is selected, and what stopped it, if it is out of play. */
  ghost predicate ChainOk(chains: Chains, p: Progress, s: string)
    requires |p.selected| == |p.owners| && s in chains
  {
    var mine := Of(p.selected, p.owners, s);
    && mine <= chains[s]
    && (s in p.heads ==> p.heads[s] == |mine|)
    && (s !in p.heads ==> |mine| == |chains[s]| || chains[s][|mine|].gasLimit > p.remaining)
  }

  ghost predicate Safe(chains: Chains, limit: U64, p: Progress)
  {
    && HeadsOk(chains, p.heads) && |p.selected| == |p.owners|
    && GasSum(p.selected) + p.remaining == limit
    && (forall s :: s in p.owners ==> s in chains)
    && (forall s :: s in chains ==> ChainOk(chains, p, s))
  }

  lemma RoundOf(chains: Chains, p: Progress, s: string, t: string)
    requires HeadsOk(chains, p.heads) && |p.selected| == |p.owners| && s in p.heads
    ensures var q := Round(chains, p, s);
            && |q.selected| == |q.owners|
            && Of(q.selected, q.owners, t) == Of(p.selected, p.owners, t)
               + (if q.selected != p.selected && t == s then [HeadTx(chains, p.heads, s)] else [])
  {
    var q := Round(chains, p, s);
    if q.selected != p.selected {
      assert q.selected[..|q.selected| - 1] == p.selected && q.owners[..|q.selected| - 1] == p.owners;
    }
  }

  lemma RoundChainOk(chains: Chains, p: Progress, s: string, t: string)
    requires HeadsOk(chains, p.heads) && |p.selected| == |p.owners| && s in p.heads && t in chains
    requires ChainOk(chains, p, t)
    ensures |Round(chains, p, s).selected| == |Round(chains, p, s).owners|
    ensures ChainOk(chains, Round(chains, p, s), t)
  {
    RoundOf(chains, p, s, t);
    if t != s {
      OtherChainOk(chains, p, s, t);
    } else if HeadTx(chains, p.heads, s).gasLimit > p.remaining {
      DroppedChainOk(chains, p, s);
    } else {
      TakenChainOk(chains, p, s);
    }
  }

  /** A chain that is not played keeps its place; less gas is left. */
  lemma OtherChainOk(chains: Chains, p: Progress, s: string, t: string)
    requires HeadsOk(chains, p.heads) && |p.selected| == |p.owners| && s in p.heads && t in chains && t != s
    requires ChainOk(chains, p, t)
    requires var q := Round(chains, p, s);
             |q.selected| == |q.owners| && Of(q.selected, q.owners, t) == Of(p.selected, p.owners, t)
    ensures ChainOk(chains, Round(chains, p, s), t)
  {
    var q := Round(chains, p, s);
    assert q.remaining <= p.remaining;
    assert t in q.heads <==> t in p.heads;
  }

  lemma DroppedChainOk(chains: Chains, p: Progress, s: string)
    requires HeadsOk(chains, p.heads) && |p.selected| == |p.owners| && s in p.heads && ChainOk(chains, p, s)
    requires HeadTx(chains, p.heads, s).gasLimit > p.remaining
    ensures ChainOk(chains, Round(chains, p, s), s)
  {
    assert Round(chains, p, s).heads == p.heads - {s};
  }

  lemma TakenChainOk(chains: Chains, p: Progress, s: string)
    requires HeadsOk(chains, p.heads) && |p.selected| == |p.owners| && s in p.heads && ChainOk(chains, p, s)
    requires HeadTx(chains, p.heads, s).gasLimit <= p.remaining
    requires var q := Round(chains, p, s);
             && |q.selected| == |q.owners|
             && Of(q.selected, q.owners, s) == Of(p.selected, p.owners, s) + [HeadTx(chains, p.heads, s)]
    ensures ChainOk(chains, Round(chains, p, s), s)
  {
    var q, mine := Round(chains, p, s), Of(p.selected, p.owners, s);
    assert HeadTx(chains, p.heads, s) == chains[s][|mine|];
    assert chains[s][..|mine| + 1] == mine + [chains[s][|mine|]];
  }

  lemma RoundSafe(chains: Chains, limit: U64, p: Progress, s: string)
    requires Safe(chains, limit, p) && s in p.heads
    ensures Safe(chains, limit, Round(chains, p, s))
  {
    var q := Round(chains, p, s);
    RoundShrinks(chains, p, s);
    RoundOf(chains, p, s, s);
    forall t | t in chains
      ensures ChainOk(chains, q, t)
    {
      RoundChainOk(chains, p, s, t);
    }
    if q.selected != p.selected {
      assert q.selected[..|q.selected| - 1] == p.selected;
    }
  }

  // ----- the heap holds the heads

  ghost predicate Matches(chains: Chains, heads: Heads, h: seq<Candidate>)
  {
    HeadsOk(chains, heads) && IsHeap(h) && multiset(h) == multiset(HeadSet(chains, heads))
  }

  lemma MatchesMember(chains: Chains, heads: Heads, h: seq<Candidate>, c: Candidate)
    requires Matches(chains, heads, h)
    ensures c in h <==> c.sender in heads && c == HeadOf(chains, heads, c.sender)
  {
    assert c in h <==> c in multiset(HeadSet(chains, heads));
  }

  /** The popped candidate is what a scan over all heads could have picked. */
  lemma PoppedIsFirst(chains: Chains, heads: Heads, h: seq<Candidate>, c: Candidate)
    requires Matches(chains, heads, h) && c in h && forall d :: d in h ==> !Ahead(d, c)
    ensures c.sender in heads && c == HeadOf(chains, heads, c.sender) && IsFirst(chains, heads, c.sender)
  {
    MatchesMember(chains, heads, h, c);
    forall t | t in heads
      ensures !Before(HeadTx(chains, heads, t), HeadTx(chains, heads, c.sender))
    {
      MatchesMember(chains, heads, h, HeadOf(chains, heads, t));
    }
  }

  lemma HeadSetRemove(chains: Chains, heads: Heads, s: string)
    requires HeadsOk(chains, heads) && s in heads
    ensures HeadsOk(chains, heads - {s})
    ensures HeadSet(chains, heads - {s}) == HeadSet(chains, heads) - {HeadOf(chains, heads, s)}
  {
    var fewer := heads - {s};
    forall c | c in HeadSet(chains, fewer)
      ensures c in HeadSet(chains, heads) - {HeadOf(chains, heads, s)}
    {
      var t :| t in fewer && c == HeadOf(chains, fewer, t);
      assert c == HeadOf(chains, heads, t);
    }
    forall c | c in HeadSet(chains, heads) - {HeadOf(chains, heads, s)}
      ensures c in HeadSet(chains, fewer)
    {
      var t :| t in heads && c == HeadOf(chains, heads, t);
      assert c == HeadOf(chains, fewer, t);
    }
  }

  lemma HeadSetAdd(chains: Chains, heads: Heads, s: string, i: nat)
    requires HeadsOk(chains, heads) && s !in heads && s in chains && i < |chains[s]|
    ensures HeadsOk(chains, heads[s := i])
    ensures HeadSet(chains, heads[s := i]) == HeadSet(chains, heads) + {Candidate(s, i, chains[s][i])}
    ensures Candidate(s, i, chains[s][i]) !in HeadSet(chains, heads)
  {
    var more := heads[s := i];
    forall c | c in HeadSet(chains, more)
      ensures c in HeadSet(chains, heads) + {Candidate(s, i, chains[s][i])}
    {
      var t :| t in more && c == HeadOf(chains, more, t);
      if t != s {
        assert c == HeadOf(chains, heads, t);
      }
    }
    forall c | c in HeadSet(chains, heads)
      ensures c in HeadSet(chains, more)
    {
      var t :| t in heads && c == HeadOf(chains, heads, t);
      assert c == HeadOf(chains, more, t);
    }
    assert HeadOf(chains, more, s) == Candidate(s, i, chains[s][i]);
  }

  /** After the pop, the heap holds the other heads. */
  lemma MatchesPop(chains: Chains, heads: Heads, h0: seq<Candidate>, h: seq<Candidate>, c: Candidate)
    requires Matches(chains, heads, h0) && c.sender in heads && c == HeadOf(chains, heads, c.sender)
    requires IsHeap(h) && multiset(h0) == multiset(h) + multiset{c}
    ensures Matches(chains, heads - {c.sender}, h)
  {
    HeadSetRemove(chains, heads, c.sender);
    assert multiset(h) == multiset(h0) - multiset{c};
  }

  lemma MatchesPush(chains: Chains, heads: Heads, h0: seq<Candidate>, h: seq<Candidate>, s: string, i: nat)
    requires Matches(chains, heads, h0) && s !in heads && s in chains && i < |chains[s]|
    requires IsHeap(h) && multiset(h) == multiset(h0) + multiset{Candidate(s, i, chains[s][i])}
    ensures Matches(chains, heads[s := i], h)
  {
    HeadSetAdd(chains, heads, s, i);
  }

  // ----- the loop of the source

  /** Every non-empty chain starts with its first transaction in play. */
  ghost function StartHeads(chains: Chains): Heads
  {
    map s | s in chains && chains[s] != [] :: 0
  }

  /** The senders in increasing order, whatever order the map is read in. */
  method SortedSenders(names: set<string>) returns (senders: seq<string>)
    ensures StrictlySorted(Less, senders) && Distinct(senders) && Members(senders) == names
  {
    var todo := names;
    senders := [];
    while todo != {}
      invariant todo <= names && Distinct(senders) && Members(senders) == names - todo
      decreases todo
    {
      var s :| s in todo;
      todo := todo - {s};
      assert Members(senders + [s]) == Members(senders) + {s};
      senders := senders + [s];
    }
    SortStrings(senders);
    senders := Sort(Less, senders);
  }

  ghost predicate Started(chains: Chains, heads: Heads, senders: set<string>)
  {
    && (forall s :: s in heads ==> s in senders && s in chains && chains[s] != [] && heads[s] == 0)
    && (forall s :: s in senders && s in chains && chains[s] != [] ==> s in heads)
  }

  method InitialHeap(chains: Chains) returns (h: seq<Candidate>)
    ensures Matches(chains, StartHeads(chains), h)
  {
    var senders := SortedSenders(chains.Keys);
    h := PushHeads(chains, senders);
  }

  method PushHeads(chains: Chains, senders: seq<string>) returns (h: seq<Candidate>)
    requires Distinct(senders) && Members(senders) == chains.Keys
    ensures Matches(chains, StartHeads(chains), h)
  {
    h := [];
    ghost var heads: Heads := map[];
    assert HeadSet(chains, heads) == {};
    for i := 0 to |senders|
      invariant Matches(chains, heads, h) && Started(chains, heads, Members(senders[..i]))
    {
      NextSender(senders, i);
      h, heads := PushHead(chains, h, senders[i], heads, Members(senders[..i]));
    }
    assert senders[..|senders|] == senders;
    AllStarted(chains, heads);
  }

  lemma NextSender(senders: seq<string>, i: nat)
    requires Distinct(senders) && i < |senders|
    ensures senders[i] in Members(senders) && senders[i] !in Members(senders[..i])
    ensures Members(senders[..i + 1]) == Members(senders[..i]) + {senders[i]}
  {
    assert senders[..i + 1] == senders[..i] + [senders[i]];
  }

  lemma AllStarted(chains: Chains, heads: Heads)
    requires Started(chains, heads, chains.Keys)
    ensures heads == StartHeads(chains)
  {
  }

  /** The first transaction of one more sender, if it has any. */
  method PushHead(chains: Chains, h0: seq<Candidate>, sender: string, ghost heads0: Heads, ghost done: set<string>)
    returns (h: seq<Candidate>, ghost heads: Heads)
    requires Matches(chains, heads0, h0) && Started(chains, heads0, done) && sender in chains && sender !in done
    ensures Matches(chains, heads, h) && Started(chains, heads, done + {sender})
  {
    h, heads := h0, heads0;
    if chains[sender] != [] {
      h := Push(h0, Candidate(sender, 0, chains[sender][0]));
      MatchesPush(chains, heads0, h0, h, sender, 0);
      heads := heads0[sender := 0];
    }
  }

  datatype StopReason = Exhausted | MaxTransactions | EmptyPool | GasExhausted

  /** A chain is in play again after its head was selected, if it has another transaction. */
  method Advance(chains: Chains, ghost heads: Heads, h0: seq<Candidate>, cand: Candidate) returns (h: seq<Candidate>)
    requires cand.sender in heads && Matches(chains, heads - {cand.sender}, h0)
    requires HeadsOk(chains, heads) && cand == HeadOf(chains, heads, cand.sender)
    ensures var s := cand.sender;
            Matches(chains, if heads[s] + 1 < |chains[s]| then heads[s := heads[s] + 1] else heads - {s}, h)
  {
    h := h0;
    var chain := chains[cand.sender];
    var nextIndex := cand.index + 1;
    if nextIndex < |chain| {
      h := Push(h, Candidate(cand.sender, nextIndex, chain[nextIndex]));
      MatchesPush(chains, heads - {cand.sender}, h0, h, cand.sender, nextIndex);
      assert (heads - {cand.sender})[cand.sender := nextIndex] == heads[cand.sender := nextIndex];
    }
  }

  ghost function Start(chains: Chains, limit: U64): Progress
  {
    Progress(StartHeads(chains), limit, [], [], [], [])
  }

  lemma StartIsSafe(chains: Chains, limit: U64)
    ensures Safe(chains, limit, Start(chains, limit))
  {
  }

  /** With distinct hashes the popped sender is the scanned one, so both algorithms go on alike. */
  lemma RescanStep(chains: Chains, p: Progress, maxTx: nat, s: string)
    requires HeadsOk(chains, p.heads) && IsFirst(chains, p.heads, s) && |p.selected| < maxTx
    ensures HeadsOk(chains, Round(chains, p, s).heads)
    ensures DistinctHashes(chains) ==> Rescan(chains, p, maxTx) == Rescan(chains, Round(chains, p, s), maxTx)
  {
    RoundShrinks(chains, p, s);
    assert s in p.heads.Keys;
    if DistinctHashes(chains) {
      FirstIsUnique(chains, p.heads, s, Scan(chains, p.heads));
    }
  }

  /** The gas limit in force: zero means none but the width of the counter. */
  function Limit(maxGas: U64): U64
  {
    if maxGas == 0 then U64_SIZE - 1 else maxGas
  }

  /** The selected transactions respect the budget, are a prefix of every chain, and leave no sender that still fits. */
  ghost predicate GoodSelection(chains: Chains, limit: U64, maxTx: nat, selected: seq<Tx>, owners: seq<string>,
                                remaining: U64)
  {
    && |selected| == |owners| && |selected| <= maxTx
    && GasSum(selected) + remaining == limit
    && (forall s :: s in owners ==> s in chains)
    && (forall s :: s in chains ==> Of(selected, owners, s) <= chains[s])
    && (|selected| < maxTx ==>
          forall s :: s in chains ==>
            var mine := |Of(selected, owners, s)|;
            mine == |chains[s]| || chains[s][mine].gasLimit > remaining)
  }

  // ----- the picks, told by fields alone

  /** One candidate that was looked at, and whether it was taken. */
  datatype Pick = Pick(sender: string, tx: Tx, taken: bool)

  function TakenTxs(log: seq<Pick>): seq<Tx>
  {
    if log == [] then []
    else
      var last := log[|log| - 1];
      TakenTxs(log[..|log| - 1]) + if last.taken then [last.tx] else []
  }

  function DroppedTxs(log: seq<Pick>): seq<Tx>
  {
    if log == [] then []
    else
      var last := log[|log| - 1];
      DroppedTxs(log[..|log| - 1]) + if last.taken then [] else [last.tx]
  }

  function Hashes(log: seq<Pick>): seq<string>
  {
    if log == [] then [] else Hashes(log[..|log| - 1]) + [log[|log| - 1].tx.hash]
  }

  /** How many transactions of the sender were taken. */
  function TakenOf(log: seq<Pick>, s: string): nat
  {
    if log == [] then 0
    else
      var last := log[|log| - 1];
      TakenOf(log[..|log| - 1], s) + if last.taken && last.sender == s then 1 else 0
  }

  predicate DroppedIn(log: seq<Pick>, s: string)
  {
    exists k :: 0 <= k < |log| && log[k].sender == s && !log[k].taken
  }

  /** The sender has a next transaction and was not dropped. */
  predicate InPlay(chains: Chains, log: seq<Pick>, s: string)
  {
    s in chains && !DroppedIn(log, s) && TakenOf(log, s) < |chains[s]|
  }

  /**
   * A right choice after `log`: the next transaction of a sender in play, at least as good by its fields as the next
   * one of every other, and taken exactly when its gas fits into what the taken ones leave of the limit.
   */
  ghost predicate RightPick(chains: Chains, limit: int, log: seq<Pick>, pick: Pick)
  {
    && InPlay(chains, log, pick.sender) && pick.tx == chains[pick.sender][TakenOf(log, pick.sender)]
    && (forall t :: InPlay(chains, log, t) ==> AtLeastAsGood(pick.tx, chains[t][TakenOf(log, t)]))
    && (pick.taken <==> GasSum(TakenTxs(log)) + pick.tx.gasLimit <= limit)
  }

  /** Right choices all along, none after `maxTx` were taken. */
  ghost predicate RightLog(chains: Chains, limit: int, maxTx: nat, log: seq<Pick>)
  {
    forall k :: 0 <= k < |log| ==> RightPick(chains, limit, log[..k], log[k]) && |TakenTxs(log[..k])| < maxTx
  }

  /** The progress and the log tell the same story. */
  ghost predicate Tracks(chains: Chains, limit: int, log: seq<Pick>, p: Progress)
  {
    && p.selected == TakenTxs(log) && p.rejected == DroppedTxs(log) && p.ranking == Hashes(log)
    && p.remaining + GasSum(p.selected) == limit
    && (forall t :: t in p.heads <==> InPlay(chains, log, t))
    && (forall t :: t in p.heads ==> p.heads[t] == TakenOf(log, t))
  }

  lemma TracksStart(chains: Chains, limit: U64)
    ensures Tracks(chains, limit, [], Start(chains, limit))
  {
  }

  lemma LogStep(log: seq<Pick>, pick: Pick, t: string)
    ensures TakenTxs(log + [pick]) == TakenTxs(log) + (if pick.taken then [pick.tx] else [])
    ensures DroppedTxs(log + [pick]) == DroppedTxs(log) + (if pick.taken then [] else [pick.tx])
    ensures Hashes(log + [pick]) == Hashes(log) + [pick.tx.hash]
    ensures TakenOf(log + [pick], t) == TakenOf(log, t) + if pick.taken && pick.sender == t then 1 else 0
    ensures DroppedIn(log + [pick], t) <==> DroppedIn(log, t) || (pick.sender == t && !pick.taken)
  {
    var more := log + [pick];
    assert more[..|log|] == log && more[|log|] == pick;
    if k :| 0 <= k < |log| && log[k].sender == t && !log[k].taken {
      assert more[k] == log[k];
    }
    if k :| 0 <= k < |more| && more[k].sender == t && !more[k].taken {
      assert k < |log| ==> log[k] == more[k];
    }
  }

  /** The popped head is a right choice. */
  lemma FirstIsRight(chains: Chains, limit: int, log: seq<Pick>, p: Progress, s: string)
    requires HeadsOk(chains, p.heads) && Tracks(chains, limit, log, p) && IsFirst(chains, p.heads, s)
    ensures var tx := HeadTx(chains, p.heads, s);
            RightPick(chains, limit, log, Pick(s, tx, tx.gasLimit <= p.remaining))
  {
    forall t | InPlay(chains, log, t)
      ensures AtLeastAsGood(HeadTx(chains, p.heads, s), chains[t][TakenOf(log, t)])
    {
      assert t in p.heads;
      BeforeMeans(HeadTx(chains, p.heads, s), HeadTx(chains, p.heads, t));
    }
  }

  lemma TracksHeads(chains: Chains, limit: int, log: seq<Pick>, p: Progress, s: string, t: string)
    requires HeadsOk(chains, p.heads) && Tracks(chains, limit, log, p) && s in p.heads
    ensures var tx := HeadTx(chains, p.heads, s);
            var more, q := log + [Pick(s, tx, tx.gasLimit <= p.remaining)], Round(chains, p, s);
            (t in q.heads <==> InPlay(chains, more, t)) && (t in q.heads ==> q.heads[t] == TakenOf(more, t))
  {
    var tx := HeadTx(chains, p.heads, s);
    LogStep(log, Pick(s, tx, tx.gasLimit <= p.remaining), t);
    assert t in p.heads <==> InPlay(chains, log, t);
  }

  lemma TracksRound(chains: Chains, limit: int, log: seq<Pick>, p: Progress, s: string)
    requires HeadsOk(chains, p.heads) && Tracks(chains, limit, log, p) && s in p.heads
    ensures var tx := HeadTx(chains, p.heads, s);
            Tracks(chains, limit, log + [Pick(s, tx, tx.gasLimit <= p.remaining)], Round(chains, p, s))
  {
    var tx, q := HeadTx(chains, p.heads, s), Round(chains, p, s);
    var more := log + [Pick(s, tx, tx.gasLimit <= p.remaining)];
    LogStep(log, Pick(s, tx, tx.gasLimit <= p.remaining), s);
    forall t
      ensures (t in q.heads <==> InPlay(chains, more, t)) && (t in q.heads ==> q.heads[t] == TakenOf(more, t))
    {
      TracksHeads(chains, limit, log, p, s, t);
    }
    if tx.gasLimit <= p.remaining {
      assert (p.selected + [tx])[..|p.selected|] == p.selected;
    }
  }

  lemma RightLogExtends(chains: Chains, limit: int, maxTx: nat, log: seq<Pick>, pick: Pick)
    requires RightLog(chains, limit, maxTx, log) && RightPick(chains, limit, log, pick) && |TakenTxs(log)| < maxTx
    ensures RightLog(chains, limit, maxTx, log + [pick])
  {
    var more := log + [pick];
    forall k | 0 <= k < |more|
      ensures RightPick(chains, limit, more[..k], more[k]) && |TakenTxs(more[..k])| < maxTx
    {
      if k < |log| {
        assert more[..k] == log[..k];
      } else {
        assert more[..k] == log;
      }
    }
  }

  lemma NothingInPlay(chains: Chains, limit: int, log: seq<Pick>, p: Progress, h: seq<Candidate>)
    requires Matches(chains, p.heads, h) && Tracks(chains, limit, log, p) && |h| == 0
    ensures forall t :: !InPlay(chains, log, t)
  {
    EmptyHeap(chains, p.heads, h);
    forall t
      ensures !InPlay(chains, log, t)
    {
      assert t in p.heads <==> InPlay(chains, log, t);
    }
  }

  /** One turn of the loop: pop the first head, and take it or drop its chain. */
  method Turn(chains: Chains, ghost limit: U64, ghost p: Progress, h0: seq<Candidate>, left0: U64)
    returns (h: seq<Candidate>, left: U64, cand: Candidate, taken: bool)
    requires Safe(chains, limit, p) && Matches(chains, p.heads, h0) && |h0| > 0 && left0 == p.remaining
    ensures IsFirst(chains, p.heads, cand.sender) && cand.tx == HeadTx(chains, p.heads, cand.sender)
    ensures taken <==> cand.tx.gasLimit <= left0
    ensures left == Round(chains, p, cand.sender).remaining
    ensures Matches(chains, Round(chains, p, cand.sender).heads, h)
  {
    left := left0;
    h, cand := Pop(h0);
    PoppedIsFirst(chains, p.heads, h0, cand);
    MatchesPop(chains, p.heads, h0, h, cand);
    taken := cand.tx.gasLimit <= left;
    if taken {
      left := left - cand.tx.gasLimit;
      h := Advance(chains, p.heads, h, cand);
    }
  }

  /** What holds at the head of the loop: the log is right and tells the progress, and a rescan would go on alike. */
  ghost predicate Underway(chains: Chains, limit: U64, maxTx: nat, log: seq<Pick>, p: Progress)
  {
    && Safe(chains, limit, p) && |p.selected| <= maxTx
    && Tracks(chains, limit, log, p) && RightLog(chains, limit, maxTx, log)
    && (DistinctHashes(chains) ==> Rescan(chains, p, maxTx) == Rescan(chains, Start(chains, limit), maxTx))
  }

  lemma UnderwayStart(chains: Chains, limit: U64, maxTx: nat)
    ensures Underway(chains, limit, maxTx, [], Start(chains, limit))
  {
    StartIsSafe(chains, limit);
    TracksStart(chains, limit);
  }

  lemma UnderwayStep(chains: Chains, limit: U64, maxTx: nat, log: seq<Pick>, p: Progress, s: string)
    returns (more: seq<Pick>)
    requires Underway(chains, limit, maxTx, log, p) && IsFirst(chains, p.heads, s) && |p.selected| < maxTx
    ensures Underway(chains, limit, maxTx, more, Round(chains, p, s))
    ensures 0 <= Left(chains, Round(chains, p, s).heads) < Left(chains, p.heads)
  {
    more := Logged(chains, limit, maxTx, log, p, s);
    RoundSafe(chains, limit, p, s);
    RescanStep(chains, p, maxTx, s);
    RoundShrinks(chains, p, s);
  }

  lemma Finished(chains: Chains, limit: U64, maxTx: nat, log: seq<Pick>, p: Progress, h: seq<Candidate>)
    requires Underway(chains, limit, maxTx, log, p) && Matches(chains, p.heads, h)
    requires |h| == 0 || |p.selected| >= maxTx
    ensures GoodSelection(chains, limit, maxTx, p.selected, p.owners, p.remaining)
    ensures Rescan(chains, p, maxTx) == p
    ensures |p.selected| < maxTx ==> forall s :: !InPlay(chains, log, s)
  {
    EmptyHeap(chains, p.heads, h);
    assert forall s :: s in chains ==> ChainOk(chains, p, s);
    if |h| == 0 {
      NothingInPlay(chains, limit, log, p, h);
    }
  }

  method SelectTransactions(chains: Chains, maxGas: U64, maxTx: nat)
    returns (selected: seq<Tx>, rejected: seq<Tx>, ranking: seq<string>, stop: StopReason,
             ghost owners: seq<string>, ghost remaining: U64, ghost log: seq<Pick>)
    ensures GoodSelection(chains, Limit(maxGas), maxTx, selected, owners, remaining)
    ensures GasSum(selected) + remaining == if maxGas == 0 then 0xffff_ffff_ffff_ffff else maxGas
    ensures RightLog(chains, if maxGas == 0 then 0xffff_ffff_ffff_ffff else maxGas, maxTx, log)
    ensures |selected| < maxTx ==> forall s :: !InPlay(chains, log, s)
    ensures selected == TakenTxs(log) && rejected == DroppedTxs(log) && ranking == Hashes(log)
    ensures DistinctHashes(chains) ==>
              var q := Rescan(chains, Start(chains, Limit(maxGas)), maxTx);
              selected == q.selected && rejected == q.rejected && ranking == q.ranking
    ensures stop == if |selected| >= maxTx then MaxTransactions
                    else if selected == [] && rejected == [] then EmptyPool
                    else if remaining == 0 then GasExhausted
                    else Exhausted
  {
    var left: U64 := Limit(maxGas);
    ghost var limit := Limit(maxGas);
    var h := InitialHeap(chains);
    selected, rejected, ranking, log := [], [], [], [];
    ghost var p := Start(chains, limit);
    UnderwayStart(chains, limit, maxTx);
    while |h| > 0 && |selected| < maxTx
      invariant Underway(chains, limit, maxTx, log, p) && Matches(chains, p.heads, h)
      invariant selected == p.selected && rejected == p.rejected && ranking == p.ranking && left == p.remaining
      decreases Left(chains, p.heads)
    {
      var cand, taken;
      h, left, cand, taken := Turn(chains, limit, p, h, left);
      log := UnderwayStep(chains, limit, maxTx, log, p, cand.sender);
      ranking := ranking + [cand.tx.hash];
      if taken {
        selected := selected + [cand.tx];
      } else {
        rejected := rejected + [cand.tx];
      }
      p := Round(chains, p, cand.sender);
    }
    Finished(chains, limit, maxTx, log, p, h);
    owners, remaining := p.owners, p.remaining;
    stop := Exhausted;
    if |selected| >= maxTx {
      stop := MaxTransactions;
    } else if |selected| == 0 && |rejected| == 0 {
      stop := EmptyPool;
    } else if left == 0 {
      stop := GasExhausted;
    }
  }

  lemma Logged(chains: Chains, limit: U64, maxTx: nat, log: seq<Pick>, p: Progress, s: string) returns (more: seq<Pick>)
    requires Safe(chains, limit, p) && Tracks(chains, limit, log, p) && RightLog(chains, limit, maxTx, log)
    requires IsFirst(chains, p.heads, s) && |p.selected| < maxTx
    ensures Tracks(chains, limit, more, Round(chains, p, s)) && RightLog(chains, limit, maxTx, more)
  {
    var tx := HeadTx(chains, p.heads, s);
    more := log + [Pick(s, tx, tx.gasLimit <= p.remaining)];
    FirstIsRight(chains, limit, log, p, s);
    TracksRound(chains, limit, log, p, s);
    RightLogExtends(chains, limit, maxTx, log, Pick(s, tx, tx.gasLimit <= p.remaining));
  }

  lemma EmptyHeap(chains: Chains, heads: Heads, h: seq<Candidate>)
    requires Matches(chains, heads, h)
    ensures |h| == 0 ==> heads.Keys == {}
  {
    forall s | s in heads
      ensures |h| > 0
    {
      MatchesMember(chains, heads, h, HeadOf(chains, heads, s));
    }
  }
}

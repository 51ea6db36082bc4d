/** From a decoded pool to a candidate block: normalise every sender, select, total up. */
module BlockBuilder {
  import opened Collections
  import opened Ordering
  import opened Transactions
  import opened SenderChains
  import opened Selection

  /** What normalising one sender gives. */
  datatype Result = Result(chain: seq<Tx>, decisions: seq<Decision>)

  /** Every sender's result is normal: a maximal run of its pool, and a reason for everything it lost. */
  ghost predicate AllNormal(pool: map<string, Groups>, blockGasLimit: U64, senders: seq<string>, results: seq<Result>)
  {
    && |results| <= |senders|
    && forall k :: 0 <= k < |results| ==> NormalFor(pool, blockGasLimit, senders[k], results[k])
  }

  ghost predicate NormalFor(pool: map<string, Groups>, blockGasLimit: U64, s: string, r: Result)
  {
    s in pool && IsNormal(pool[s], blockGasLimit, r.chain, r.decisions)
  }

  /** The chains by sender. */
  ghost function ChainsOf(senders: seq<string>, results: seq<Result>): Chains
    requires |results| <= |senders|
  {
    if results == [] then map[]
    else
      var n := |results| - 1;
      ChainsOf(senders, results[..n])[senders[n] := results[n].chain]
  }

  /** The decisions, one sender after the other. */
  ghost function DecisionsOf(results: seq<Result>): seq<Decision>
  {
    if results == [] then []
    else DecisionsOf(results[..|results| - 1]) + results[|results| - 1].decisions
  }

  /** Senders in increasing order, each with its result. */
  method NormalizePool(pool: map<string, Groups>, blockGasLimit: U64)
    returns (chains: Chains, decisions: seq<Decision>, ghost senders: seq<string>, ghost results: seq<Result>)
    requires forall s :: s in pool ==> GroupsOk(pool[s])
    ensures StrictlySorted(Less, senders) && Members(senders) == pool.Keys && |results| == |senders|
    ensures AllNormal(pool, blockGasLimit, senders, results)
    ensures chains == ChainsOf(senders, results) && decisions == DecisionsOf(results)
  {
    var names := SortedSenders(pool.Keys);
    senders := names;
    chains, decisions, results := NormalizeInOrder(pool, blockGasLimit, names);
  }

  method NormalizeInOrder(pool: map<string, Groups>, blockGasLimit: U64, names: seq<string>)
    returns (chains: Chains, decisions: seq<Decision>, ghost results: seq<Result>)
    requires forall s :: s in pool ==> GroupsOk(pool[s])
    requires Members(names) == pool.Keys
    ensures |results| == |names| && AllNormal(pool, blockGasLimit, names, results)
    ensures chains == ChainsOf(names, results) && decisions == DecisionsOf(results)
  {
    chains, decisions, results := map[], [], [];
    for i := 0 to |names|
      invariant |results| == i && AllNormal(pool, blockGasLimit, names, results)
      invariant chains == ChainsOf(names, results) && decisions == DecisionsOf(results)
    {
      var s := names[i];
      assert s in Members(names);
      var chain, own;
      ghost var visited;
      chain, own, visited := NormalizeSenderChain(pool[s], blockGasLimit);
      ResultAdded(pool, blockGasLimit, names, results, Result(chain, own));
      ResultsExtend(names, results, Result(chain, own));
      chains := chains[s := chain];
      decisions := decisions + own;
      results := results + [Result(chain, own)];
    }
  }

  lemma ResultAdded(pool: map<string, Groups>, blockGasLimit: U64, senders: seq<string>, results: seq<Result>,
                    r: Result)
    requires |results| < |senders| && AllNormal(pool, blockGasLimit, senders, results)
    requires NormalFor(pool, blockGasLimit, senders[|results|], r)
    ensures AllNormal(pool, blockGasLimit, senders, results + [r])
  {
    var more := results + [r];
    forall k | 0 <= k < |more|
      ensures NormalFor(pool, blockGasLimit, senders[k], more[k])
    {
      assert k < |results| ==> more[k] == results[k] && NormalFor(pool, blockGasLimit, senders[k], results[k]);
    }
  }

  lemma ResultsExtend(senders: seq<string>, results: seq<Result>, r: Result)
    requires |results| < |senders|
    ensures ChainsOf(senders, results + [r]) == ChainsOf(senders, results)[senders[|results|] := r.chain]
    ensures DecisionsOf(results + [r]) == DecisionsOf(results) + r.decisions
  {
    assert (results + [r])[..|results|] == results;
  }

  lemma {:induction false} ChainAt(senders: seq<string>, results: seq<Result>, k: nat)
    requires k < |results| <= |senders| && Distinct(senders)
    ensures senders[k] in ChainsOf(senders, results) && ChainsOf(senders, results)[senders[k]] == results[k].chain
  {
    var n := |results| - 1;
    if k == n {
    } else {
      ChainAt(senders, results[..n], k);
    }
  }

  /**
   * The block respects its budgets without the 64-bit totals wrapping, and what it takes of each sender is a
   * contiguous run from that sender's lowest nonce, each transaction the best of its nonce.
   */
  method BuildBlock(pool: map<string, Groups>, blockGasLimit: U64, maxGas: U64, maxTx: nat)
    returns (selected: seq<Tx>, totalGas: U64, totalRevenue: int, ghost chains: Chains, ghost senders: seq<string>,
             ghost results: seq<Result>, ghost owners: seq<string>, ghost remaining: U64)
    requires forall s :: s in pool ==> GroupsOk(pool[s])
    ensures Members(senders) == pool.Keys && |results| == |senders|
    ensures AllNormal(pool, blockGasLimit, senders, results) && chains == ChainsOf(senders, results)
    ensures GoodSelection(chains, Limit(maxGas), maxTx, selected, owners, remaining)
    ensures totalGas == GasSum(selected) && totalRevenue == ScoreSum(selected) && (maxGas > 0 ==> totalGas <= maxGas)
    ensures forall s :: s in pool ==> IsRun(pool[s], blockGasLimit, Of(selected, owners, s))
  {
    var theChains, decisions;
    theChains, decisions, senders, results := NormalizePool(pool, blockGasLimit);
    chains := theChains;
    var rejected, ranking, stop;
    ghost var log;
    selected, rejected, ranking, stop, owners, remaining, log := SelectTransactions(theChains, maxGas, maxTx);
    totalGas, totalRevenue := Totals(selected);
    StrictlySortedDistinct(senders);
    forall s | s in pool
      ensures IsRun(pool[s], blockGasLimit, Of(selected, owners, s))
    {
      SelectedIsRun(pool, blockGasLimit, senders, results, s, Of(selected, owners, s));
    }
  }

  /** What is selected of a sender is the start of its chain, so a run. */
  lemma SelectedIsRun(pool: map<string, Groups>, blockGasLimit: U64, senders: seq<string>, results: seq<Result>,
                      s: string, mine: seq<Tx>)
    requires Distinct(senders) && Members(senders) == pool.Keys && |results| == |senders| && s in pool
    requires AllNormal(pool, blockGasLimit, senders, results)
    requires s in ChainsOf(senders, results) ==> mine <= ChainsOf(senders, results)[s]
    ensures IsRun(pool[s], blockGasLimit, mine)
  {
    assert s in Members(senders);
    var k :| 0 <= k < |senders| && senders[k] == s;
    ChainAt(senders, results, k);
    assert NormalFor(pool, blockGasLimit, senders[k], results[k]);
    SelectedRun(pool[s], blockGasLimit, results[k].chain, mine);
  }
}

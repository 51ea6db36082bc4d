/** Normalising one sender's transactions into a chain: best of each nonce, no gap, nothing over the block gas. */
module SenderChains {
  import opened Options
  import opened Collections
  import opened Ordering
  import opened Transactions

  /** Transactions by nonce, as the decoder collects them. */
  type Groups = map<U64, seq<Tx>>

  datatype Reason = ReplacementConflict | NonceGap | ExceedsBlockGas

  datatype Decision = Decision(tx: Tx, reason: Reason)

  ghost predicate GroupsOk(groups: Groups)
  {
    forall n :: n in groups ==> groups[n] != [] && forall tx :: tx in groups[n] ==> tx.nonce == n
  }

  /** No transaction with the same nonce ranks before `tx`. */
  ghost predicate IsBest(groups: Groups, n: U64, tx: Tx)
  {
    n in groups && tx in groups[n] && forall other :: other in groups[n] ==> !Before(other, tx)
  }

  ghost predicate Fits(blockGasLimit: U64, tx: Tx)
  {
    blockGasLimit == 0 || tx.gasLimit <= blockGasLimit
  }

  /** The lowest nonce there is. */
  ghost predicate IsLowest(groups: Groups, n: int)
  {
    0 <= n < U64_SIZE && n in groups && forall m :: m in groups ==> n <= m
  }

  /** A gap-free run from the lowest nonce, the best transaction of each nonce, none over the block gas. */
  ghost predicate IsRun(groups: Groups, blockGasLimit: U64, chain: seq<Tx>)
  {
    && (chain != [] ==> IsLowest(groups, chain[0].nonce))
    && (forall i :: 0 <= i < |chain| ==>
          && chain[i].nonce == chain[0].nonce + i
          && IsBest(groups, chain[i].nonce, chain[i]) && Fits(blockGasLimit, chain[i]))
  }

  /** Why the run ends: the next nonce is missing, or a best transaction for it is too big. */
  ghost predicate EndsAt(groups: Groups, blockGasLimit: U64, next: int)
  {
    || !(0 <= next < U64_SIZE) || next !in groups
    || (exists tx :: IsBest(groups, next, tx) && !Fits(blockGasLimit, tx))
  }

  ghost predicate IsMaximal(groups: Groups, blockGasLimit: U64, chain: seq<Tx>)
  {
    if chain == [] then forall n :: IsLowest(groups, n) ==> EndsAt(groups, blockGasLimit, n)
    else EndsAt(groups, blockGasLimit, chain[|chain| - 1].nonce + 1)
  }

  predicate NonceLess(a: U64, b: U64)
  {
    a < b
  }

  function Rejected(decisions: seq<Decision>): (r: seq<Tx>)
    ensures |r| == |decisions|
  {
    if decisions == [] then [] else Rejected(decisions[..|decisions| - 1]) + [decisions[|decisions| - 1].tx]
  }

  lemma {:induction false} RejectedAppend(a: seq<Decision>, b: seq<Decision>)
    ensures Rejected(a + b) == Rejected(a) + Rejected(b)
  {
    if b == [] {
      assert a + b == a;
    } else {
      RejectedAppend(a, b[..|b| - 1]);
      assert (a + b)[..|a + b| - 1] == a + b[..|b| - 1];
    }
  }

  /** All transactions of the given nonces. */
  ghost function Pool(groups: Groups, nonces: seq<U64>): multiset<Tx>
    requires forall n :: n in nonces ==> n in groups
  {
    if nonces == [] then multiset{}
    else Pool(groups, nonces[..|nonces| - 1]) + multiset(groups[nonces[|nonces| - 1]])
  }

  /** The nonces in increasing order. */
  method SortedNonces(groups: Groups) returns (nonces: seq<U64>)
    ensures Listed(groups, nonces)
  {
    var todo := groups.Keys;
    var out: seq<U64> := [];
    while todo != {}
      invariant todo <= groups.Keys && Distinct(out) && forall n :: n in out <==> n in groups && n !in todo
      decreases todo
    {
      var n :| n in todo;
      todo := todo - {n};
      out := out + [n];
    }
    nonces := Sort(NonceLess, out);
    SortSorted(NonceLess, out);
    PermutationFacts(out, nonces);
    forall n
      ensures n in nonces <==> n in out
    {
      assert n in Members(nonces) <==> n in Members(out);
    }
  }

  method RejectAll(txs: seq<Tx>) returns (decisions: seq<Decision>)
    ensures Rejected(decisions) == txs
    ensures forall d :: d in decisions ==> d.reason == ReplacementConflict && d.tx in txs
  {
    decisions := [];
    for i := 0 to |txs|
      invariant Rejected(decisions) == txs[..i]
      invariant forall d :: d in decisions ==> d.reason == ReplacementConflict && d.tx in txs
    {
      RejectedAppend(decisions, [Decision(txs[i], ReplacementConflict)]);
      decisions := decisions + [Decision(txs[i], ReplacementConflict)];
      assert txs[..i + 1] == txs[..i] + [txs[i]];
    }
    assert txs[..|txs|] == txs;
  }

  lemma SortedFirstIsBest(list: seq<Tx>, other: Tx)
    requires list != [] && other in list
    ensures Sort(Before, list)[0] in list && !Before(other, Sort(Before, list)[0])
  {
    var sorted := Sort(Before, list);
    BeforeIsStrictWeak();
    SortSorted(Before, list);
    PermutationFacts(list, sorted);
    assert sorted[0] in Members(sorted) && other in Members(sorted);
    var k :| 0 <= k < |sorted| && sorted[k] == other;
    assert k == 0 || !Before(sorted[k], sorted[0]);
  }

  /** The first of the stably sorted group is a best one; the others are replaced. */
  method PickBest(list: seq<Tx>) returns (best: Tx, replaced: seq<Decision>)
    requires list != []
    ensures best in list && forall other :: other in list ==> !Before(other, best)
    ensures forall other :: other in list ==> AtLeastAsGood(best, other)
    ensures multiset{best} + multiset(Rejected(replaced)) == multiset(list)
    ensures forall d :: d in replaced ==> d.reason == ReplacementConflict && d.tx in list && |list| > 1
  {
    var sorted := Sort(Before, list);
    best := sorted[0];
    replaced := RejectAll(sorted[1..]);
    FirstAndRest(list);
    FirstIsBest(list);
    RestIsListed(list);
    BestByFields(list, best);
  }

  lemma BestByFields(list: seq<Tx>, best: Tx)
    requires forall other :: other in list ==> !Before(other, best)
    ensures forall other :: other in list ==> AtLeastAsGood(best, other)
  {
    forall other | other in list
      ensures AtLeastAsGood(best, other)
    {
      BeforeMeans(best, other);
    }
  }

  lemma FirstAndRest(list: seq<Tx>)
    requires list != []
    ensures multiset{Sort(Before, list)[0]} + multiset(Sort(Before, list)[1..]) == multiset(list)
  {
    var sorted := Sort(Before, list);
    assert sorted == [sorted[0]] + sorted[1..];
  }

  lemma FirstIsBest(list: seq<Tx>)
    requires list != []
    ensures Sort(Before, list)[0] in list && forall other :: other in list ==> !Before(other, Sort(Before, list)[0])
  {
    assert list[0] in list;
    forall other | other in list
      ensures Sort(Before, list)[0] in list && !Before(other, Sort(Before, list)[0])
    {
      SortedFirstIsBest(list, other);
    }
  }

  lemma RestIsListed(list: seq<Tx>)
    requires list != []
    ensures forall tx :: tx in Sort(Before, list)[1..] ==> tx in list && |list| > 1
  {
    var sorted := Sort(Before, list);
    PermutationFacts(list, sorted);
    forall tx | tx in sorted[1..]
      ensures tx in list && |list| > 1
    {
      assert tx in Members(sorted);
    }
  }

  /** What the loop has established after the first `i` nonces, none of which ended the run. */
  ghost predicate SoFar(groups: Groups, blockGasLimit: U64, nonces: seq<U64>, i: nat, chain: seq<Tx>)
    requires i <= |nonces|
  {
    && |chain| == i && IsRun(groups, blockGasLimit, chain)
    && forall k :: 0 <= k < i ==> chain[k].nonce == nonces[k]
  }

  ghost predicate IsGap(prev: int, nonce: int)
  {
    nonce > prev + 1
  }

  ghost predicate Listed(groups: Groups, nonces: seq<U64>)
  {
    && (forall n :: n in nonces <==> n in groups)
    && (forall i, j :: 0 <= i < j < |nonces| ==> nonces[i] < nonces[j])
  }

  lemma LowestIsFirst(groups: Groups, nonces: seq<U64>)
    requires Listed(groups, nonces) && nonces != []
    ensures IsLowest(groups, nonces[0])
  {
    assert nonces[0] in nonces;
  }

  /** Taking the best of the next nonce extends the run. */
  lemma Extend(groups: Groups, blockGasLimit: U64, nonces: seq<U64>, i: nat, chain: seq<Tx>, best: Tx)
    requires Listed(groups, nonces) && i < |nonces| && SoFar(groups, blockGasLimit, nonces, i, chain)
    requires best.nonce == nonces[i] && IsBest(groups, nonces[i], best) && Fits(blockGasLimit, best)
    requires i > 0 ==> !IsGap(nonces[i - 1], nonces[i])
    ensures SoFar(groups, blockGasLimit, nonces, i + 1, chain + [best])
  {
    LowestIsFirst(groups, nonces);
  }

  /** Any reason to stop is a reason the run cannot be longer. */
  lemma Ended(groups: Groups, blockGasLimit: U64, nonces: seq<U64>, i: nat, chain: seq<Tx>)
    requires Listed(groups, nonces) && i <= |nonces| && SoFar(groups, blockGasLimit, nonces, i, chain)
    requires i < |nonces| ==>
               || (i > 0 && IsGap(nonces[i - 1], nonces[i]))
               || (exists tx :: IsBest(groups, nonces[i], tx) && !Fits(blockGasLimit, tx))
    ensures IsMaximal(groups, blockGasLimit, chain)
  {
    if chain == [] {
      forall n | IsLowest(groups, n)
        ensures EndsAt(groups, blockGasLimit, n)
      {
        assert nonces != [];
        LowestIsFirst(groups, nonces);
        assert n == nonces[0];
      }
    } else {
      var next: int := chain[i - 1].nonce + 1;
      if 0 <= next < U64_SIZE && next in groups {
        assert (next as U64) in nonces;
        var k :| 0 <= k < |nonces| && nonces[k] == next;
        assert k == i;
      }
    }
  }

  /** Every transaction of the visited nonces is in the chain or in a decision. */
  ghost predicate Accounted(groups: Groups, visited: seq<U64>, chain: seq<Tx>, decisions: seq<Decision>)
  {
    && (forall n :: n in visited ==> n in groups)
    && multiset(chain) + multiset(Rejected(decisions)) == Pool(groups, visited)
  }

  lemma AccountTake(groups: Groups, nonces: seq<U64>, i: nat, chain: seq<Tx>, decisions: seq<Decision>,
                    best: Tx, replaced: seq<Decision>)
    requires i < |nonces| && nonces[i] in groups && Accounted(groups, nonces[..i], chain, decisions)
    requires multiset{best} + multiset(Rejected(replaced)) == multiset(groups[nonces[i]])
    ensures Accounted(groups, nonces[..i + 1], chain + [best], decisions + replaced)
  {
    RejectedAppend(decisions, replaced);
    PoolNext(groups, nonces, i);
    assert multiset(chain + [best]) == multiset(chain) + multiset{best};
    Regroup(multiset(chain), multiset(Rejected(decisions)), Pool(groups, nonces[..i]), multiset{best},
            multiset(Rejected(replaced)), multiset(groups[nonces[i]]));
  }

  lemma Regroup(a: multiset<Tx>, b: multiset<Tx>, ab: multiset<Tx>, c: multiset<Tx>, d: multiset<Tx>, cd: multiset<Tx>)
    requires a + b == ab && c + d == cd
    ensures (a + c) + (b + d) == ab + cd
    ensures a + (b + d + c) == ab + cd
  {
  }

  lemma AccountReject(groups: Groups, nonces: seq<U64>, i: nat, chain: seq<Tx>, decisions: seq<Decision>,
                      best: Tx, replaced: seq<Decision>, reason: Reason)
    requires i < |nonces| && nonces[i] in groups && Accounted(groups, nonces[..i], chain, decisions)
    requires multiset{best} + multiset(Rejected(replaced)) == multiset(groups[nonces[i]])
    ensures Accounted(groups, nonces[..i + 1], chain, decisions + replaced + [Decision(best, reason)])
  {
    RejectedAppend(decisions, replaced);
    RejectedAppend(decisions + replaced, [Decision(best, reason)]);
    assert Rejected([Decision(best, reason)]) == [best];
    PoolNext(groups, nonces, i);
    Regroup(multiset(chain), multiset(Rejected(decisions)), Pool(groups, nonces[..i]), multiset{best},
            multiset(Rejected(replaced)), multiset(groups[nonces[i]]));
  }

  lemma PoolNext(groups: Groups, nonces: seq<U64>, i: nat)
    requires i < |nonces| && nonces[i] in groups && forall n :: n in nonces[..i] ==> n in groups
    ensures forall n :: n in nonces[..i + 1] ==> n in groups
    ensures Pool(groups, nonces[..i + 1]) == Pool(groups, nonces[..i]) + multiset(groups[nonces[i]])
  {
    assert nonces[..i + 1] == nonces[..i] + [nonces[i]];
    assert nonces[..i + 1][..i] == nonces[..i];
  }

  /** Another transaction of the same nonce was preferred. */
  ghost predicate Replaced(groups: Groups, d: Decision)
  {
    && d.reason == ReplacementConflict
    && d.tx.nonce in groups && d.tx in groups[d.tx.nonce] && |groups[d.tx.nonce]| > 1
  }

  ghost predicate AllReplaced(groups: Groups, decisions: seq<Decision>)
  {
    forall d :: d in decisions ==> Replaced(groups, d)
  }

  /** The next nonce after the chain, if there is one, and how its best transaction ended the run. */
  ghost predicate EndedBy(groups: Groups, blockGasLimit: U64, chain: seq<Tx>, d: Decision)
  {
    && IsBest(groups, d.tx.nonce, d.tx)
    && (forall m :: m in groups ==> d.tx.nonce <= m || (chain != [] && m <= chain[|chain| - 1].nonce))
    && match d.reason
       case NonceGap => chain != [] && d.tx.nonce > chain[|chain| - 1].nonce + 1
       case ExceedsBlockGas =>
         !Fits(blockGasLimit, d.tx) && (chain != [] ==> d.tx.nonce == chain[|chain| - 1].nonce + 1)
       case ReplacementConflict => false
  }

  /** Every decision carries the reason that applies; only the last can be something other than a replacement. */
  ghost predicate Reasoned(groups: Groups, blockGasLimit: U64, chain: seq<Tx>, decisions: seq<Decision>)
  {
    || AllReplaced(groups, decisions)
    || (|decisions| > 0 && AllReplaced(groups, decisions[..|decisions| - 1])
        && EndedBy(groups, blockGasLimit, chain, decisions[|decisions| - 1]))
  }

  lemma VerdictReason(groups: Groups, blockGasLimit: U64, nonces: seq<U64>, i: nat, chain: seq<Tx>, prev: U64, best: Tx)
    requires Listed(groups, nonces) && i < |nonces| && SoFar(groups, blockGasLimit, nonces, i, chain)
    requires best.nonce == nonces[i] && IsBest(groups, nonces[i], best) && (i > 0 ==> prev == nonces[i - 1])
    ensures var v := Verdict(i > 0, prev, nonces[i], best, blockGasLimit);
            v.Some? ==> EndedBy(groups, blockGasLimit, chain, Decision(best, v.value))
  {
    forall m | m in groups
      ensures nonces[i] <= m || (i > 0 && m <= nonces[i - 1])
    {
      assert m in nonces;
      var k :| 0 <= k < |nonces| && nonces[k] == m;
    }
  }

  /** How the best transaction of a nonce fares. */
  function Verdict(havePrev: bool, prev: U64, nonce: U64, best: Tx, blockGasLimit: U64): (v: Option<Reason>)
  {
    // The addition is 64-bit; it cannot wrap because a larger nonce follows.
    if havePrev && nonce > (prev + 1) % U64_SIZE then Some(NonceGap)
    else if blockGasLimit > 0 && best.gasLimit > blockGasLimit then Some(ExceedsBlockGas)
    else None
  }

  lemma VerdictIsRight(groups: Groups, blockGasLimit: U64, nonces: seq<U64>, i: nat, chain: seq<Tx>, prev: U64,
                       best: Tx)
    requires Listed(groups, nonces) && i < |nonces| && SoFar(groups, blockGasLimit, nonces, i, chain)
    requires best.nonce == nonces[i] && IsBest(groups, nonces[i], best) && (i > 0 ==> prev == nonces[i - 1])
    ensures Verdict(i > 0, prev, nonces[i], best, blockGasLimit).None? ==>
              SoFar(groups, blockGasLimit, nonces, i + 1, chain + [best])
    ensures Verdict(i > 0, prev, nonces[i], best, blockGasLimit).Some? ==> IsMaximal(groups, blockGasLimit, chain)
  {
    if Verdict(i > 0, prev, nonces[i], best, blockGasLimit).None? {
      Extend(groups, blockGasLimit, nonces, i, chain, best);
    } else {
      Ended(groups, blockGasLimit, nonces, i, chain);
    }
  }

  /** The loop before any nonce ended the run. */
  ghost predicate Going(groups: Groups, blockGasLimit: U64, nonces: seq<U64>, i: nat, chain: seq<Tx>,
                        decisions: seq<Decision>)
    requires i <= |nonces|
  {
    && SoFar(groups, blockGasLimit, nonces, i, chain) && AllReplaced(groups, decisions)
    && Accounted(groups, nonces[..i], chain, decisions)
  }

  /** What a normalised sender looks like: a maximal run, and a reason for everything rejected. */
  ghost predicate IsNormal(groups: Groups, blockGasLimit: U64, chain: seq<Tx>, decisions: seq<Decision>)
  {
    && IsRun(groups, blockGasLimit, chain) && IsMaximal(groups, blockGasLimit, chain)
    && Reasoned(groups, blockGasLimit, chain, decisions)
  }

  /** One turn of the loop: the best of the next nonce joins the chain or ends it. */
  method Consider(groups: Groups, blockGasLimit: U64, nonces: seq<U64>, i: nat, chain0: seq<Tx>,
                  decisions0: seq<Decision>,
                  prev: U64, havePrev: bool)
    returns (chain: seq<Tx>, decisions: seq<Decision>, stop: bool)
    requires GroupsOk(groups) && Listed(groups, nonces) && i < |nonces|
    requires Going(groups, blockGasLimit, nonces, i, chain0, decisions0)
    requires havePrev == (i > 0) && (i > 0 ==> prev == nonces[i - 1])
    ensures !stop ==> Going(groups, blockGasLimit, nonces, i + 1, chain, decisions)
    ensures stop ==> IsNormal(groups, blockGasLimit, chain, decisions)
    ensures Accounted(groups, nonces[..i + 1], chain, decisions)
  {
    assert nonces[i] in nonces;
    var best, replaced := PickBest(groups[nonces[i]]);
    assert IsBest(groups, nonces[i], best);
    VerdictIsRight(groups, blockGasLimit, nonces, i, chain0, prev, best);
    VerdictReason(groups, blockGasLimit, nonces, i, chain0, prev, best);
    assert AllReplaced(groups, decisions0 + replaced);
    var verdict := Verdict(havePrev, prev, nonces[i], best, blockGasLimit);
    if verdict.Some? {
      AccountReject(groups, nonces, i, chain0, decisions0, best, replaced, verdict.value);
      decisions := decisions0 + replaced + [Decision(best, verdict.value)];
      assert decisions[..|decisions| - 1] == decisions0 + replaced;
      return chain0, decisions, true;
    }
    AccountTake(groups, nonces, i, chain0, decisions0, best, replaced);
    return chain0 + [best], decisions0 + replaced, false;
  }

  /**
   * The chain is the longest gap-free run of best transactions from the lowest nonce. Every transaction of the nonces
   * looked at is in the chain or in a decision with the reason that applies; later nonces get neither.
   */
  method NormalizeSenderChain(groups: Groups, blockGasLimit: U64)
    returns (chain: seq<Tx>, decisions: seq<Decision>, ghost visited: seq<U64>)
    requires GroupsOk(groups)
    ensures IsNormal(groups, blockGasLimit, chain, decisions)
    ensures Accounted(groups, visited, chain, decisions)
    ensures forall n, m :: n in visited && m in groups && m !in visited ==> n < m
  {
    var nonces := SortedNonces(groups);
    chain, decisions := [], [];
    var prev: U64, havePrev := 0, false;
    var i := 0;
    var stopped := false;
    while i < |nonces| && !stopped
      invariant 0 <= i <= |nonces|
      invariant !stopped ==> Going(groups, blockGasLimit, nonces, i, chain, decisions)
      invariant !stopped ==> havePrev == (i > 0) && (i > 0 ==> prev == nonces[i - 1])
      invariant stopped ==> IsNormal(groups, blockGasLimit, chain, decisions)
      invariant Accounted(groups, nonces[..i], chain, decisions)
      decreases |nonces| - i
    {
      chain, decisions, stopped := Consider(groups, blockGasLimit, nonces, i, chain, decisions, prev, havePrev);
      prev, havePrev := nonces[i], true;
      i := i + 1;
    }
    if !stopped {
      Ended(groups, blockGasLimit, nonces, i, chain);
    }
    VisitedFirst(groups, nonces, i);
    visited := nonces[..i];
  }

  lemma VisitedFirst(groups: Groups, nonces: seq<U64>, i: nat)
    requires Listed(groups, nonces) && i <= |nonces|
    ensures forall n, m :: n in nonces[..i] && m in groups && m !in nonces[..i] ==> n < m
  {
    forall n, m | n in nonces[..i] && m in groups && m !in nonces[..i]
      ensures n < m
    {
      var a :| 0 <= a < i && nonces[..i][a] == n;
      assert m in nonces;
      var b :| 0 <= b < |nonces| && nonces[b] == m;
      assert forall k :: 0 <= k < i ==> nonces[..i][k] == nonces[k] && nonces[k] in nonces[..i];
    }
  }

  /** In a run each transaction is at least as good, field by field, as every other of its nonce. */
  lemma RunIsBestByFields(groups: Groups, blockGasLimit: U64, chain: seq<Tx>, i: nat, other: Tx)
    requires IsRun(groups, blockGasLimit, chain) && i < |chain| && other in groups[chain[i].nonce]
    ensures AtLeastAsGood(chain[i], other)
  {
    BeforeMeans(chain[i], other);
  }

  /** Whatever prefix of a normalised chain is selected, it is a contiguous nonce run from the sender's lowest nonce. */
  lemma SelectedRun(groups: Groups, blockGasLimit: U64, chain: seq<Tx>, mine: seq<Tx>)
    requires IsRun(groups, blockGasLimit, chain) && mine <= chain
    ensures IsRun(groups, blockGasLimit, mine)
  {
  }
}

/** Pool transactions and the one order that ranks them. */
module Transactions {
  import opened Options
  import opened Ordering

  const U64_SIZE: int := 0x1_0000_0000_0000_0000

  type U64 = x: int | 0 <= x < U64_SIZE

  datatype Tx = Tx(hash: string, from: string, nonce: U64, gasLimit: U64, score: Option<int>)

  /** Negative when `a` ranks before `b`: higher score, a score before none, less gas, smaller hash. */
  function CompareTx(a: Tx, b: Tx): int
  {
    if a.score.Some? && b.score.Some? && a.score.value != b.score.value then
      if a.score.value > b.score.value then -1 else 1
    else if a.score.Some? && b.score.None? then -1
    else if a.score.None? && b.score.Some? then 1
    else if a.gasLimit != b.gasLimit then
      if a.gasLimit < b.gasLimit then -1 else 1
    else if Less(a.hash, b.hash) then -1
    else if Less(b.hash, a.hash) then 1
    else 0
  }

  predicate Before(a: Tx, b: Tx)
  {
    CompareTx(a, b) < 0
  }

  lemma BeforeIsStrictWeak()
    ensures StrictWeak(Before)
  {
    LessIsStrictWeak();
    forall x, y
      ensures Before(x, y) ==> !Before(y, x)
    {
      assert Less(x.hash, y.hash) ==> !Less(y.hash, x.hash);
    }
    forall x, y, z
      ensures Before(x, z) ==> Before(x, y) || Before(y, z)
    {
      if Before(x, z) {
        BeforeNegativelyTransitive(x, y, z);
      }
    }
  }

  lemma BeforeNegativelyTransitive(x: Tx, y: Tx, z: Tx)
    requires Before(x, z)
    ensures Before(x, y) || Before(y, z)
  {
    LessIsStrictWeak();
    assert Less(x.hash, z.hash) ==> Less(x.hash, y.hash) || Less(y.hash, z.hash);
    LessTrichotomy(x.hash, y.hash);
    LessTrichotomy(y.hash, z.hash);
    LessTrichotomy(x.hash, z.hash);
  }

  /** Transactions with different hashes are never tied, and the sign tells the two sides apart. */
  lemma CompareTxIsTotal(a: Tx, b: Tx)
    ensures a.hash != b.hash ==> Before(a, b) || Before(b, a)
    ensures CompareTx(a, b) == -CompareTx(b, a)
  {
    LessTrichotomy(a.hash, b.hash);
  }

  /** Field by field: no lower score, a score before none, no more gas on equal scores, no greater hash after that. */
  ghost predicate AtLeastAsGood(a: Tx, b: Tx)
  {
    && (b.score.Some? ==> a.score.Some? && a.score.value >= b.score.value)
    && (a.score == b.score ==> a.gasLimit <= b.gasLimit)
    && (a.score == b.score && a.gasLimit == b.gasLimit ==> a.hash == b.hash || Less(a.hash, b.hash))
  }

  lemma BeforeMeans(a: Tx, b: Tx)
    ensures !Before(b, a) <==> AtLeastAsGood(a, b)
  {
    LessTrichotomy(a.hash, b.hash);
  }

  /** The gas of a list, unbounded. */
  function GasSum(txs: seq<Tx>): nat
  {
    if txs == [] then 0 else GasSum(txs[..|txs| - 1]) + txs[|txs| - 1].gasLimit
  }

  function ScoreSum(txs: seq<Tx>): int
  {
    if txs == [] then 0
    else ScoreSum(txs[..|txs| - 1]) + if txs[|txs| - 1].score.Some? then txs[|txs| - 1].score.value else 0
  }

  /** The totals of a candidate block; the gas total is a 64-bit sum that may wrap. */
  method Totals(selected: seq<Tx>) returns (totalGas: U64, totalRevenue: int)
    ensures totalGas == GasSum(selected) % U64_SIZE
    ensures GasSum(selected) < U64_SIZE ==> totalGas == GasSum(selected)
    ensures totalRevenue == ScoreSum(selected)
  {
    totalGas, totalRevenue := 0, 0;
    for i := 0 to |selected|
      invariant totalGas == GasSum(selected[..i]) % U64_SIZE
      invariant totalRevenue == ScoreSum(selected[..i])
    {
      assert selected[..i + 1][..i] == selected[..i];
      totalGas := (totalGas + selected[i].gasLimit) % U64_SIZE;
      if selected[i].score.Some? {
        totalRevenue := totalRevenue + selected[i].score.value;
      }
    }
    assert selected[..|selected|] == selected;
  }
}

/** Rendezvous routing: the shard with the best score for the key, the least name among equals. */
module Routing {
  import opened Collections
  import opened Ordering

  /** The first eight bytes of the digest of a text, read as a number. */
  type Digest = string -> nat

  function Score(digest: Digest, key: string, shard: string): nat
  {
    digest(key + ":" + shard)
  }

  ghost predicate Beats(digest: Digest, key: string, a: string, b: string)
  {
    || Score(digest, key, a) > Score(digest, key, b)
    || (Score(digest, key, a) == Score(digest, key, b) && Less(a, b))
  }

  /** `r` is the shard of `key` among `shards`; without shards it is the empty name. */
  ghost predicate IsRoute(digest: Digest, key: string, shards: set<string>, r: string)
  {
    if shards == {} then r == ""
    else r in shards && forall s :: s in shards && s != r ==> Beats(digest, key, r, s)
  }

  lemma RouteUnique(digest: Digest, key: string, shards: set<string>, a: string, b: string)
    requires IsRoute(digest, key, shards, a) && IsRoute(digest, key, shards, b)
    ensures a == b
  {
    LessTrichotomy(a, b);
  }

  /** Minimal disruption: a key whose shard survives stays where it is. */
  lemma RouteSurvives(digest: Digest, key: string, fewer: set<string>, more: set<string>, r: string, q: string)
    requires fewer <= more && IsRoute(digest, key, more, r) && IsRoute(digest, key, fewer, q)
    requires r in fewer
    ensures q == r
  {
    assert IsRoute(digest, key, fewer, r);
    RouteUnique(digest, key, fewer, q, r);
  }

  /** Adding a shard moves keys only to it; read from right to left, removing it moves only its keys. */
  lemma OneShardMoves(digest: Digest, key: string, shards: set<string>, x: string, r: string, q: string)
    requires shards != {} && IsRoute(digest, key, shards, r) && IsRoute(digest, key, shards + {x}, q)
    ensures q == r || q == x
  {
    if q in shards {
      RouteSurvives(digest, key, shards, shards + {x}, q, r);
    }
  }

  /** The table holds the non-empty names, once each, in increasing order. */
  ghost predicate Table(names: seq<string>, shards: seq<string>)
  {
    StrictlySorted(Less, shards) && forall s :: s in shards <==> s in names && s != ""
  }

  /** Only the set of non-empty names matters. */
  lemma TableUnique(names1: seq<string>, names2: seq<string>, shards1: seq<string>, shards2: seq<string>)
    requires Table(names1, shards1) && Table(names2, shards2)
    requires forall s :: s != "" ==> (s in names1 <==> s in names2)
    ensures shards1 == shards2
  {
    LessIsStrictWeak();
    StrictlySortedUnique(Less, shards1, shards2);
  }

  method NewRouting(names: seq<string>) returns (shards: seq<string>)
    ensures Table(names, shards)
  {
    var out := [];
    var seen := {};
    for i := 0 to |names|
      invariant Distinct(out)
      invariant forall s :: s in seen <==> s in out
      invariant forall s :: s in out <==> s in names[..i] && s != ""
    {
      var shard := names[i];
      assert names[..i + 1] == names[..i] + [shard];
      if shard != "" && shard !in seen {
        seen := seen + {shard};
        out := out + [shard];
      }
    }
    assert names[..|names|] == names;
    SortStrings(out);
    shards := Sort(Less, out);
    forall s
      ensures s in shards <==> s in out
    {
      assert s in Members(shards) <==> s in Members(out);
    }
  }

  method Route(digest: Digest, shards: seq<string>, key: string) returns (best: string)
    requires StrictlySorted(Less, shards) && "" !in shards
    ensures IsRoute(digest, key, Members(shards), best)
    ensures forall s :: s in shards ==> digest(key + ":" + s) <= digest(key + ":" + best)
    ensures forall s :: s in shards && s != best && digest(key + ":" + s) == digest(key + ":" + best) ==> Less(best, s)
  {
    if |shards| == 0 {
      return "";
    }
    best := "";
    var bestScore := 0;
    for i := 0 to |shards|
      invariant best == "" <==> i == 0
      invariant i > 0 ==> best in shards[..i] && bestScore == Score(digest, key, best)
      invariant forall k :: 0 <= k < i && shards[k] != best ==> Beats(digest, key, best, shards[k])
    {
      var shard := shards[i];
      var score := Score(digest, key, shard);
      LessTrichotomy(shard, best);
      if best == "" || score > bestScore {
        best, bestScore := shard, score;
      }
    }
    assert shards[0] in Members(shards);
  }
}

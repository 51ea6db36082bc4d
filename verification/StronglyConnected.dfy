/** Kosaraju's two depth-first passes: the components are exactly the classes of mutual reachability. */
module StronglyConnected {
  import opened Collections
  import opened Ordering
  import opened Digraphs

  // ----- the first pass: finishing order

  /**
   * Why the node at `j` finished where it did: from position `k` on, everything before it was found from it, and
   * nothing that had finished before `k` has an edge into that stretch.
   */
  ghost predicate Rooted(g: Digraph, order: seq<Node>, j: nat, k: nat)
  {
    && k <= j < |order|
    && (forall i :: k <= i < j ==> Reaches(g, order[j], order[i]))
    && (forall i, y :: 0 <= i < k && Edge(g, order[i], y) ==> y !in order[k..j + 1])
  }

  ghost predicate HasRoot(g: Digraph, order: seq<Node>, j: nat)
  {
    exists k :: Rooted(g, order, j, k)
  }

  ghost predicate FinishingOrder(g: Digraph, order: seq<Node>)
  {
    forall j :: 0 <= j < |order| ==> HasRoot(g, order, j)
  }

  /** Finished nodes are seen, once each, and their successors are seen. */
  ghost predicate Finishing(g: Digraph, seen: set<Node>, order: seq<Node>)
  {
    && seen <= Nodes(g) && Members(order) <= seen && Distinct(order)
    && (forall x, y :: x in order && Edge(g, x, y) ==> y in seen)
    && FinishingOrder(g, order)
  }

  lemma RootedExtends(g: Digraph, order: seq<Node>, more: seq<Node>, j: nat, k: nat)
    requires Rooted(g, order, j, k)
    ensures Rooted(g, order + more, j, k)
  {
    assert (order + more)[k..j + 1] == order[k..j + 1];
  }

  /** Appending a node whose search started when `before` had finished and `seen0` was seen. */
  lemma Finish(g: Digraph, seen0: set<Node>, before: seq<Node>, order: seq<Node>, n: Node)
    requires Finishing(g, seen0, before) && FinishingOrder(g, order) && before <= order
    requires n !in seen0
    requires forall i :: |before| <= i < |order| ==> order[i] !in seen0 && Reaches(g, n, order[i])
    ensures FinishingOrder(g, order + [n])
  {
    var all, j, k := order + [n], |order|, |before|;
    forall i | 0 <= i < j
      ensures HasRoot(g, all, i)
    {
      assert HasRoot(g, order, i);
      var m :| Rooted(g, order, i, m);
      RootedExtends(g, order, [n], i, m);
    }
    forall i, y | 0 <= i < k && Edge(g, all[i], y)
      ensures y !in all[k..j + 1]
    {
      assert all[i] == before[i] && before[i] in before;
      assert y in seen0;
    }
    assert Rooted(g, all, j, k);
  }

  /** A path from `a` to `b` that keeps out of `s`. */
  ghost predicate ReachesOutside(g: Digraph, a: Node, b: Node, s: set<Node>)
  {
    exists p :: Path(g, p, a, b) && forall i :: 0 <= i < |p| ==> p[i] !in s
  }

  /** One edge more at the start. */
  lemma OutsideBefore(g: Digraph, a: Node, b: Node, c: Node, s: set<Node>, t: set<Node>)
    requires Edge(g, a, b) && a !in s && s <= t && ReachesOutside(g, b, c, t)
    ensures ReachesOutside(g, a, c, s)
  {
    var p :| Path(g, p, b, c) && forall i :: 0 <= i < |p| ==> p[i] !in t;
    var q := [a] + p;
    forall i | 0 <= i < |q| - 1
      ensures Edge(g, q[i], q[i + 1])
    {
      assert i > 0 ==> q[i] == p[i - 1] && q[i + 1] == p[i - 1 + 1];
    }
    assert Path(g, q, a, c);
  }

  /** What a visit of `n` adds: the nodes it newly saw are the ones it finished, and `n` reaches them on new ground. */
  ghost predicate Grown(g: Digraph, n: Node, seen0: set<Node>, order0: seq<Node>, seen: set<Node>, order: seq<Node>,
                        pending: set<Node>)
  {
    && seen0 <= seen && order0 <= order
    && (forall x :: x in seen && x !in seen0 ==> ReachesOutside(g, n, x, seen0))
    && Members(order[|order0|..]) == seen - seen0 - pending
  }

  /** A visit of a successor, seen from the node that made it. */
  lemma GrownOnward(g: Digraph, n: Node, m: Node, seen0: set<Node>, order0: seq<Node>, seen1: set<Node>,
                    order1: seq<Node>,
                    seen: set<Node>, order: seq<Node>)
    requires Edge(g, n, m) && n in seen1 && n !in seen0
    requires Grown(g, n, seen0, order0, seen1, order1, {n}) && Grown(g, m, seen1, order1, seen, order, {})
    ensures Grown(g, n, seen0, order0, seen, order, {n})
  {
    forall x | x in seen && x !in seen1
      ensures ReachesOutside(g, n, x, seen0)
    {
      OutsideBefore(g, n, m, x, seen0, seen1);
    }
    assert order[|order0|..] == order1[|order0|..] + order[|order1|..];
    assert Members(order[|order0|..]) == Members(order1[|order0|..]) + Members(order[|order1|..]);
  }

  lemma VisitDone(g: Digraph, n: Node, seen0: set<Node>, before: seq<Node>, seen: set<Node>, order: seq<Node>)
    requires Finishing(g, seen0, before) && Finishing(g, seen, order) && Grown(g, n, seen0, before, seen, order, {n})
    requires n !in seen0 && n in seen && n !in order && forall y :: Edge(g, n, y) ==> y in seen
    ensures Finishing(g, seen, order + [n]) && Grown(g, n, seen0, before, seen, order + [n], {})
  {
    forall i | |before| <= i < |order|
      ensures order[i] !in seen0 && Reaches(g, n, order[i])
    {
      assert order[i] in Members(order[|before|..]);
      assert ReachesOutside(g, n, order[i], seen0);
    }
    Finish(g, seen0, before, order, n);
    assert (order + [n])[|before|..] == order[|before|..] + [n];
    assert Members(order[|before|..] + [n]) == Members(order[|before|..]) + {n};
  }

  /** After a visit nothing that lies ahead on new ground is left unseen. */
  lemma {:induction false} OutsideSeen(g: Digraph, n: Node, seen0: set<Node>, order0: seq<Node>, seen: set<Node>,
                                       order: seq<Node>, p: seq<Node>, i: nat)
    requires Finishing(g, seen, order) && Grown(g, n, seen0, order0, seen, order, {}) && n in seen
    requires i < |p| && p[0] == n && Chain(g, p) && forall k :: 0 <= k < |p| ==> p[k] !in seen0
    ensures p[i] in seen
  {
    if i == 0 {
    } else {
      OutsideSeen(g, n, seen0, order0, seen, order, p, i - 1);
      assert p[i - 1] in Members(order[|order0|..]);
      assert p[i - 1] in order;
      assert Edge(g, p[i - 1], p[i - 1 + 1]);
    }
  }

  /** So a visit sees exactly what can be reached from its node without touching what was seen before. */
  lemma GrownExactly(g: Digraph, n: Node, seen0: set<Node>, order0: seq<Node>, seen: set<Node>, order: seq<Node>)
    requires Finishing(g, seen, order) && Grown(g, n, seen0, order0, seen, order, {}) && n in seen
    ensures forall x :: x in seen - seen0 <==> ReachesOutside(g, n, x, seen0)
  {
    forall x | ReachesOutside(g, n, x, seen0)
      ensures x in seen - seen0
    {
      var p :| Path(g, p, n, x) && forall i :: 0 <= i < |p| ==> p[i] !in seen0;
      OutsideSeen(g, n, seen0, order0, seen, order, p, |p| - 1);
    }
  }

  /** The variables the first recursive closure captures. */
  class FirstPass {
    const g: Digraph
    var seen: set<Node>
    var order: seq<Node>

    constructor (g: Digraph)
      ensures this.g == g && seen == {} && order == []
    {
      this.g := g;
      seen, order := {}, [];
    }

    /** Sees everything that can be reached from `n` through unseen nodes, and finishes it. */
    method Visit(n: Node)
      requires n in Nodes(g) && Finishing(g, seen, order)
      modifies this
      ensures Finishing(g, seen, order) && n in seen
      ensures Grown(g, n, old(seen), old(order), seen, order, {})
      decreases Nodes(g) - seen
    {
      if n in seen {
        return;
      }
      ghost var seen0, before := seen, order;
      seen := seen + {n};
      assert Path(g, [n], n, n);
      var outs := Successors(g, n);
      for i := 0 to |outs|
        invariant Finishing(g, seen, order) && n in seen && n !in order
        invariant Grown(g, n, seen0, before, seen, order, {n})
        invariant forall k :: 0 <= k < i ==> outs[k] in seen
      {
        ghost var seen1, order1 := seen, order;
        assert Edge(g, n, outs[i]);
        EdgeInside(g, n, outs[i]);
        Visit(outs[i]);
        GrownOnward(g, n, outs[i], seen0, before, seen1, order1, seen, order);
        assert order == order1 + order[|order1|..];
        assert n !in Members(order[|order1|..]);
      }
      VisitDone(g, n, seen0, before, seen, order);
      order := order + [n];
    }
  }

  // ----- the second pass: collecting components in the reversed graph

  ghost predicate Reversed(g: Digraph, rev: Digraph)
  {
    forall x, y :: Edge(rev, x, y) <==> Edge(g, y, x)
  }

  /** Nodes of `g` only, and all those of the rows that are no longer in `todo`. */
  ghost predicate Covers(g: Digraph, todo: set<Node>, rev: Digraph)
  {
    && rev.Keys <= Nodes(g)
    && forall x :: x in g && x !in todo ==> x in rev && forall y :: y in g[x] ==> y in rev
  }

  lemma EdgeAdded(g: Digraph, u: Node, v: Node, x: Node, y: Node)
    ensures Edge(g[u := Successors(g, u) + [v]], x, y) <==> Edge(g, x, y) || (x == u && y == v)
  {
  }

  /** The edges of `g` whose tail is no longer in `todo`, turned around. */
  ghost predicate PartlyReversed(g: Digraph, todo: set<Node>, rev: Digraph)
  {
    forall x, y :: Edge(rev, x, y) <==> y !in todo && Edge(g, y, x)
  }

  method Reverse(g: Digraph) returns (rev: Digraph)
    ensures Reversed(g, rev) && rev.Keys == Nodes(g)
  {
    rev := map[];
    var todo := g.Keys;
    while todo != {}
      invariant todo <= g.Keys && PartlyReversed(g, todo, rev) && Covers(g, todo, rev)
      decreases todo
    {
      var from :| from in todo;
      rev := ReverseRow(g, todo, from, rev);
      todo := todo - {from};
    }
  }

  /** The first `i` successors of `from` have been turned around. */
  ghost predicate RowTurned(rev0: Digraph, rev: Digraph, from: Node, outs: seq<Node>, i: nat)
    requires i <= |outs|
  {
    forall x, y :: Edge(rev, x, y) <==> Edge(rev0, x, y) || (y == from && x in outs[..i])
  }

  lemma RowEdgeAdded(rev0: Digraph, rev: Digraph, from: Node, outs: seq<Node>, i: nat, rev': Digraph)
    requires i < |outs| && RowTurned(rev0, rev, from, outs, i)
    requires rev' == rev[outs[i] := Successors(rev, outs[i]) + [from]]
    ensures RowTurned(rev0, rev', from, outs, i + 1)
  {
    assert outs[..i + 1] == outs[..i] + [outs[i]];
    forall x, y
      ensures Edge(rev', x, y) <==> Edge(rev0, x, y) || (y == from && x in outs[..i + 1])
    {
      EdgeAdded(rev, outs[i], from, x, y);
    }
  }

  method ReverseRow(g: Digraph, ghost todo: set<Node>, from: Node, rev0: Digraph) returns (rev: Digraph)
    requires from in g && from in todo && PartlyReversed(g, todo, rev0) && Covers(g, todo, rev0)
    ensures PartlyReversed(g, todo - {from}, rev) && Covers(g, todo - {from}, rev)
  {
    rev := rev0;
    if from !in rev {
      rev := rev[from := []];
    }
    assert forall x, y :: Edge(rev, x, y) <==> Edge(rev0, x, y);
    var outs := g[from];
    for i := 0 to |outs|
      invariant RowTurned(rev0, rev, from, outs, i)
      invariant rev.Keys == rev0.Keys + {from} + Members(outs[..i])
    {
      var to := outs[i];
      ghost var rev1 := rev;
      rev := rev[to := Successors(rev, to) + [from]];
      RowEdgeAdded(rev0, rev1, from, outs, i, rev);
      assert outs[..i + 1] == outs[..i] + [to];
    }
    assert outs[..|outs|] == outs;
  }

  lemma OutsideOnward(g: Digraph, a: Node, b: Node, c: Node, s: set<Node>, t: set<Node>)
    requires ReachesOutside(g, a, b, t) && s <= t && Edge(g, b, c) && c !in s
    ensures ReachesOutside(g, a, c, s)
  {
    var p :| Path(g, p, a, b) && forall i :: 0 <= i < |p| ==> p[i] !in t;
    assert Path(g, p + [c], a, c);
  }

  /** What the second pass has collected from `n`, with `pending` still to be expanded. */
  ghost predicate Collected(g: Digraph, n: Node, seen0: set<Node>, comp0: seq<Node>, seen: set<Node>, comp: seq<Node>,
                            pending: set<Node>)
  {
    && seen0 <= seen && comp0 <= comp && Distinct(comp) && Members(comp) <= seen
    && Members(comp[|comp0|..]) == seen - seen0
    && (forall x :: x in seen && x !in seen0 ==> ReachesOutside(g, x, n, seen0))
    && (forall x, y :: x in seen && x !in seen0 && x !in pending && Edge(g, y, x) ==> y in seen)
  }

  lemma CollectedOnward(g: Digraph, n: Node, m: Node, seen0: set<Node>, comp0: seq<Node>, seen1: set<Node>,
                        comp1: seq<Node>,
                        seen: set<Node>, comp: seq<Node>)
    requires Edge(g, m, n) && n !in seen0 && n in seen1
    requires Collected(g, n, seen0, comp0, seen1, comp1, {n}) && Collected(g, m, seen1, comp1, seen, comp, {})
    ensures Collected(g, n, seen0, comp0, seen, comp, {n})
  {
    forall x | x in seen && x !in seen1
      ensures ReachesOutside(g, x, n, seen0)
    {
      OutsideOnward(g, x, m, n, seen0, seen1);
    }
    assert comp[|comp0|..] == comp1[|comp0|..] + comp[|comp1|..];
    assert Members(comp[|comp0|..]) == Members(comp1[|comp0|..]) + Members(comp[|comp1|..]);
  }

  lemma CollectedStart(g: Digraph, n: Node, seen: set<Node>, comp: seq<Node>)
    requires n !in seen && Distinct(comp) && Members(comp) <= seen
    ensures Collected(g, n, seen, comp, seen + {n}, comp + [n], {n})
  {
    assert (comp + [n])[|comp|..] == [n];
    assert Path(g, [n], n, n);
  }

  /** The variables the second recursive closure captures. */
  class SecondPass {
    ghost const g: Digraph
    const rev: Digraph
    var seen: set<Node>
    var comp: seq<Node>

    constructor (ghost g: Digraph, rev: Digraph)
      ensures this.g == g && this.rev == rev && seen == {} && comp == []
    {
      this.g, this.rev := g, rev;
      seen, comp := {}, [];
    }

    /** Collects the unseen nodes that reach `n` through unseen nodes. */
    method Visit(n: Node)
      requires Reversed(g, rev) && n in Nodes(g) && seen <= Nodes(g) && Distinct(comp) && Members(comp) <= seen
      modifies this
      ensures n in seen && seen <= Nodes(g)
      ensures Collected(g, n, old(seen), old(comp), seen, comp, {})
      decreases Nodes(g) - seen
    {
      if n in seen {
        return;
      }
      ghost var seen0, comp0 := seen, comp;
      CollectedStart(g, n, seen, comp);
      seen := seen + {n};
      comp := comp + [n];
      var ins := Successors(rev, n);
      for i := 0 to |ins|
        invariant n in seen && seen <= Nodes(g) && Collected(g, n, seen0, comp0, seen, comp, {n})
        invariant forall k :: 0 <= k < i ==> ins[k] in seen
      {
        ghost var seen1, comp1 := seen, comp;
        assert Edge(rev, n, ins[i]);
        EdgeInside(g, ins[i], n);
        Visit(ins[i]);
        CollectedOnward(g, n, ins[i], seen0, comp0, seen1, comp1, seen, comp);
      }
      forall y | Edge(g, y, n)
        ensures y in seen
      {
        assert Edge(rev, n, y);
      }
    }

    method StartComponent()
      modifies `comp
      ensures comp == []
    {
      comp := [];
    }
  }

  // ----- what a collected component is

  ghost predicate ClosedUnderMutual(g: Digraph, seen: set<Node>)
  {
    forall x, y :: x in seen && Mutual(g, x, y) ==> y in seen
  }

  /** A collected node reaches the root over nodes that finished no later, so the root reaches it too. */
  lemma CollectedIsMutual(g: Digraph, order: seq<Node>, j: nat, seen0: set<Node>, x: Node)
    requires FinishingOrder(g, order) && Distinct(order) && Members(order) == Nodes(g) && j < |order|
    requires forall i :: j < i < |order| ==> order[i] in seen0
    requires ReachesOutside(g, x, order[j], seen0) && x in Nodes(g)
    ensures Mutual(g, x, order[j])
  {
    var n := order[j];
    var p :| Path(g, p, x, n) && forall i :: 0 <= i < |p| ==> p[i] !in seen0;
    assert HasRoot(g, order, j);
    var k: nat :| Rooted(g, order, j, k);
    forall i | 0 <= i < |p|
      ensures p[i] in order[..j + 1]
    {
      PathInside(g, p, x, n, i);
      assert p[i] in order;
      var m :| 0 <= m < |order| && order[m] == p[i];
      assert m <= j;
    }
    FrontIsLeft(g, order, j, k, p, x, 0);
    assert p[0] in order[..j + 1];
    var m :| 0 <= m < j + 1 && order[m] == x;
    ReachesSelf(g, n);
  }

  /** A path within the first `j + 1` finished nodes that ends at `j` does not touch the front part. */
  lemma {:induction false} FrontIsLeft(g: Digraph, order: seq<Node>, j: nat, k: nat, p: seq<Node>, x: Node, i: nat)
    requires Rooted(g, order, j, k) && Distinct(order)
    requires Path(g, p, x, order[j]) && forall m :: 0 <= m < |p| ==> p[m] in order[..j + 1]
    requires i < |p|
    ensures forall a :: 0 <= a < k ==> order[a] != p[i]
    decreases |p| - i
  {
    if i < |p| - 1 {
      FrontIsLeft(g, order, j, k, p, x, i + 1);
      var b :| 0 <= b < j + 1 && order[..j + 1][b] == p[i + 1];
      assert order[k..j + 1][b - k] == p[i + 1];
      assert Edge(g, p[i], p[i + 1]);
    }
  }

  /** The collected nodes are one whole class: nothing foreign, nothing missing. */
  lemma CollectedIsClass(g: Digraph, order: seq<Node>, j: nat, seen0: set<Node>, seen: set<Node>, comp: seq<Node>)
    requires FinishingOrder(g, order) && Distinct(order) && Members(order) == Nodes(g) && j < |order|
    requires forall i :: j < i < |order| ==> order[i] in seen0
    requires ClosedUnderMutual(g, seen0) && order[j] !in seen0 && order[j] in seen && seen <= Nodes(g)
    requires Collected(g, order[j], seen0, [], seen, comp, {})
    ensures forall x :: x in comp <==> Mutual(g, x, order[j])
    ensures ClosedUnderMutual(g, seen)
  {
    var n := order[j];
    assert comp[0..] == comp;
    forall x | x in comp
      ensures Mutual(g, x, n)
    {
      assert x in Members(comp);
      CollectedIsMutual(g, order, j, seen0, x);
    }
    forall x | Mutual(g, x, n)
      ensures x in comp
    {
      MutualIsCollected(g, n, seen0, seen, comp, x);
    }
    forall x, y | x in seen && Mutual(g, x, y)
      ensures y in seen
    {
      if x !in seen0 {
        assert x in Members(comp);
        MutualTransitive(g, y, x, n);
        assert y in Members(comp);
      }
    }
  }

  lemma MutualTransitive(g: Digraph, a: Node, b: Node, c: Node)
    requires Mutual(g, a, b) && Mutual(g, b, c)
    ensures Mutual(g, a, c)
  {
    ReachesTransitive(g, a, b, c);
    ReachesTransitive(g, c, b, a);
  }

  lemma {:induction false} MutualIsCollected(g: Digraph, n: Node, seen0: set<Node>, seen: set<Node>, comp: seq<Node>,
                                             x: Node)
    requires ClosedUnderMutual(g, seen0) && n !in seen0 && n in seen
    requires Collected(g, n, seen0, [], seen, comp, {})
    requires Mutual(g, x, n)
    ensures x in comp
  {
    var p :| Path(g, p, x, n);
    assert comp[0..] == comp;
    PathIsCollected(g, n, seen0, seen, comp, x, p, 0);
  }

  /** Walking a path back from the root never leaves what is collected. */
  lemma {:induction false} PathIsCollected(g: Digraph, n: Node, seen0: set<Node>, seen: set<Node>, comp: seq<Node>,
                                           x: Node,
                                           p: seq<Node>, i: nat)
    requires ClosedUnderMutual(g, seen0) && n !in seen0 && n in seen
    requires Collected(g, n, seen0, [], seen, comp, {})
    requires Mutual(g, x, n) && Path(g, p, x, n) && i < |p|
    ensures p[i] in seen && p[i] !in seen0 && p[i] in comp
    decreases |p| - i
  {
    assert comp[0..] == comp;
    PathMiddle(g, p, x, n, i);
    ReachesTransitive(g, n, x, p[i]);
    assert Mutual(g, p[i], n);
    if i < |p| - 1 {
      PathIsCollected(g, n, seen0, seen, comp, x, p, i + 1);
      assert Edge(g, p[i], p[i + 1]);
    }
    assert p[i] in Members(comp);
  }

  // ----- the canonical list of components

  /** One class of mutual reachability, in increasing order. */
  ghost predicate Component(g: Digraph, c: seq<Node>)
  {
    && c != [] && StrictlySorted(Less, c) && Members(c) <= Nodes(g)
    && forall x, y :: x in c ==> (y in c <==> Mutual(g, x, y))
  }

  /** The comparison of the final sort: by first member, empty lists first. */
  predicate FirstLess(a: seq<Node>, b: seq<Node>)
  {
    if |a| == 0 || |b| == 0 then |a| < |b| else Less(a[0], b[0])
  }

  /** All classes, each once, by increasing first member. */
  ghost predicate CanonicalComponents(g: Digraph, comps: seq<seq<Node>>)
  {
    && (forall c :: c in comps ==> Component(g, c))
    && StrictlySorted(FirstLess, comps)
    && (forall x :: x in Nodes(g) ==> exists c :: c in comps && x in c)
  }

  /** Read off: the members of a component increase, and so do the first members of the components. */
  lemma CanonicalIsIncreasing(g: Digraph, comps: seq<seq<Node>>)
    requires CanonicalComponents(g, comps)
    ensures forall i :: 0 <= i < |comps| ==> comps[i] != []
    ensures forall i, j :: 0 <= i < j < |comps| ==> Less(comps[i][0], comps[j][0])
    ensures forall i, j, k :: 0 <= i < |comps| && 0 <= j < k < |comps[i]| ==> Less(comps[i][j], comps[i][k])
  {
    forall i | 0 <= i < |comps|
      ensures Component(g, comps[i])
    {
      assert comps[i] in comps;
    }
  }

  lemma FirstLessIsStrictWeak()
    ensures StrictWeak(FirstLess)
  {
    LessIsStrictWeak();
    forall x, y
      ensures FirstLess(x, y) ==> !FirstLess(y, x)
    {
      if |x| > 0 && |y| > 0 {
        assert Less(x[0], y[0]) ==> !Less(y[0], x[0]);
      }
    }
    forall x, y, z
      ensures FirstLess(x, z) ==> FirstLess(x, y) || FirstLess(y, z)
    {
      if |x| > 0 && |y| > 0 && |z| > 0 {
        assert Less(x[0], z[0]) ==> Less(x[0], y[0]) || Less(y[0], z[0]);
      }
    }
  }

  lemma ComponentsSharingAreEqual(g: Digraph, a: seq<Node>, b: seq<Node>, x: Node)
    requires Component(g, a) && Component(g, b) && x in a && x in b
    ensures a == b
  {
    forall u, v
      ensures Less(u, v) ==> !Less(v, u)
    {
      LessTrichotomy(u, v);
    }
    assert forall y :: y in a <==> Mutual(g, x, y);
    assert forall y :: y in b <==> Mutual(g, x, y);
    StrictlySortedUnique(Less, a, b);
  }

  /** The result is a function of the graph: no visiting order can change it. */
  lemma CanonicalComponentsUnique(g: Digraph, s: seq<seq<Node>>, t: seq<seq<Node>>)
    requires CanonicalComponents(g, s) && CanonicalComponents(g, t)
    ensures s == t
  {
    SameComponents(g, s, t);
    SameComponents(g, t, s);
    FirstLessIsStrictWeak();
    StrictlySortedUnique(FirstLess, s, t);
  }

  lemma SameComponents(g: Digraph, s: seq<seq<Node>>, t: seq<seq<Node>>)
    requires CanonicalComponents(g, s) && CanonicalComponents(g, t)
    ensures forall c :: c in s ==> c in t
  {
    forall c | c in s
      ensures c in t
    {
      assert c[0] in Members(c);
      var d :| d in t && c[0] in d;
      ComponentsSharingAreEqual(g, c, d, c[0]);
    }
  }

  lemma SortComponents(g: Digraph, comps: seq<seq<Node>>)
    requires Distinct(comps) && forall c :: c in comps ==> Component(g, c)
    ensures StrictlySorted(FirstLess, Sort(FirstLess, comps))
    ensures forall c :: c in Sort(FirstLess, comps) <==> c in comps
  {
    var r := Sort(FirstLess, comps);
    FirstLessIsStrictWeak();
    SortSorted(FirstLess, comps);
    PermutationFacts(comps, r);
    forall c
      ensures c in r <==> c in comps
    {
      assert c in Members(r) <==> c in Members(comps);
    }
    forall i, j | 0 <= i < j < |r|
      ensures FirstLess(r[i], r[j])
    {
      assert r[i] in comps && r[j] in comps;
      LessTrichotomy(r[i][0], r[j][0]);
      if r[i][0] == r[j][0] {
        ComponentsSharingAreEqual(g, r[i], r[j], r[i][0]);
      }
    }
  }

  method Finished(g: Digraph) returns (order: seq<Node>)
    ensures FinishingOrder(g, order) && Distinct(order) && Members(order) == Nodes(g)
  {
    var pass := new FirstPass(g);
    var todo := Nodes(g);
    while todo != {}
      invariant pass.g == g && Finishing(g, pass.seen, pass.order)
      invariant Members(pass.order) == pass.seen && todo + pass.seen == Nodes(g)
      decreases todo
    {
      var n :| n in todo;
      ghost var order0 := pass.order;
      pass.Visit(n);
      assert pass.order == order0 + pass.order[|order0|..];
      assert Members(pass.order) == Members(order0) + Members(pass.order[|order0|..]);
      todo := todo - {n};
    }
    order := pass.order;
  }

  /** What the collecting loop has so far: whole classes, each once, covering what is seen. */
  ghost predicate Gathered(g: Digraph, seen: set<Node>, comps: seq<seq<Node>>)
  {
    && seen <= Nodes(g) && ClosedUnderMutual(g, seen) && Distinct(comps)
    && (forall c :: c in comps ==> Component(g, c) && Members(c) <= seen)
    && (forall x :: x in seen ==> exists c :: c in comps && x in c)
  }

  lemma GatherOne(g: Digraph, order: seq<Node>, j: nat, seen0: set<Node>, comps: seq<seq<Node>>, seen: set<Node>,
                  comp: seq<Node>)
    requires FinishingOrder(g, order) && Distinct(order) && Members(order) == Nodes(g) && j < |order|
    requires forall i :: j < i < |order| ==> order[i] in seen0
    requires Gathered(g, seen0, comps) && order[j] !in seen0 && order[j] in seen && seen <= Nodes(g)
    requires Collected(g, order[j], seen0, [], seen, comp, {})
    ensures Gathered(g, seen, comps + [Sort(Less, comp)])
  {
    var n, c := order[j], Sort(Less, comp);
    CollectedIsClass(g, order, j, seen0, seen, comp);
    SortStrings(comp);
    assert comp[0..] == comp;
    assert forall x :: x in c <==> x in Members(c);
    assert forall x :: x in comp <==> x in Members(comp);
    forall x, y | x in c
      ensures y in c <==> Mutual(g, x, y)
    {
      assert Mutual(g, x, n);
      if y in c {
        assert Mutual(g, n, y);
        MutualTransitive(g, x, n, y);
      }
      if Mutual(g, x, y) {
        MutualTransitive(g, y, x, n);
      }
    }
    assert n in Members(comp);
    assert Component(g, c);
    forall d | d in comps
      ensures d != c
    {
      assert n in c && n !in Members(d);
    }
    GatheredMore(g, seen0, comps, seen, c);
  }

  lemma GatheredMore(g: Digraph, seen0: set<Node>, comps: seq<seq<Node>>, seen: set<Node>, c: seq<Node>)
    requires Gathered(g, seen0, comps) && Component(g, c) && c !in comps
    requires seen <= Nodes(g) && ClosedUnderMutual(g, seen)
    requires seen == seen0 + Members(c)
    ensures Gathered(g, seen, comps + [c])
  {
    var all := comps + [c];
    forall x | x in seen
      ensures exists d :: d in all && x in d
    {
      if x in seen0 {
        var d :| d in comps && x in d;
        assert d in all;
      } else {
        assert c in all && x in c;
      }
    }
  }

  /** The strongly connected components, in a form that depends on the graph alone. */
  method Scc(g: Digraph) returns (comps: seq<seq<Node>>)
    ensures CanonicalComponents(g, comps)
  {
    var order := Finished(g);
    var rev := Reverse(g);
    comps := Gather(g, order, rev);
    SortComponents(g, comps);
    comps := Sort(FirstLess, comps);
  }

  /** One search of the reversed graph from each unseen node, last finished first. */
  method Gather(g: Digraph, order: seq<Node>, rev: Digraph) returns (comps: seq<seq<Node>>)
    requires FinishingOrder(g, order) && Distinct(order) && Members(order) == Nodes(g) && Reversed(g, rev)
    ensures Gathered(g, Nodes(g), comps)
  {
    var pass := new SecondPass(g, rev);
    comps := [];
    var i := |order|;
    while i > 0
      invariant 0 <= i <= |order| && pass.g == g && pass.rev == rev
      invariant Gathered(g, pass.seen, comps)
      invariant forall k :: i <= k < |order| ==> order[k] in pass.seen
      decreases i
    {
      i := i - 1;
      if order[i] !in pass.seen {
        comps := GatherFrom(g, order, rev, pass, i, comps);
      }
    }
    AllSeen(g, order, pass.seen);
  }

  lemma AllSeen(g: Digraph, order: seq<Node>, seen: set<Node>)
    requires Members(order) == Nodes(g) && seen <= Nodes(g) && forall k :: 0 <= k < |order| ==> order[k] in seen
    ensures seen == Nodes(g)
  {
    forall x | x in Nodes(g)
      ensures x in seen
    {
      assert x in Members(order);
    }
  }

  method GatherFrom(g: Digraph, order: seq<Node>, rev: Digraph, pass: SecondPass, i: nat, comps0: seq<seq<Node>>)
    returns (comps: seq<seq<Node>>)
    requires FinishingOrder(g, order) && Distinct(order) && Members(order) == Nodes(g) && Reversed(g, rev)
    requires i < |order| && pass.g == g && pass.rev == rev && order[i] !in pass.seen
    requires Gathered(g, pass.seen, comps0) && forall k :: i < k < |order| ==> order[k] in pass.seen
    modifies pass
    ensures Gathered(g, pass.seen, comps) && order[i] in pass.seen && old(pass.seen) <= pass.seen
  {
    assert order[i] in Members(order);
    ghost var seen0 := pass.seen;
    pass.StartComponent();
    pass.Visit(order[i]);
    GatherOne(g, order, i, seen0, comps0, pass.seen, pass.comp);
    comps := comps0 + [Sort(Less, pass.comp)];
  }
}

/** Kahn's algorithm with a sorted frontier: the least topological order, or a cycle. */
module Topological {
  import opened Collections
  import opened Ordering
  import opened Sums
  import opened Digraphs

  // ----- what the result is measured against

  /** Every node once, every edge forward. */
  ghost predicate IsTopological(g: Digraph, o: seq<Node>)
  {
    && Distinct(o) && Members(o) == Nodes(g)
    && forall i, j :: 0 <= i < |o| && 0 <= j < |o| && Edge(g, o[i], o[j]) ==> i < j
  }

  /** At the first difference, if any, `a` has the smaller name. */
  ghost predicate LexLe(a: seq<Node>, b: seq<Node>)
  {
    if a == [] then true
    else if b == [] then false
    else if a[0] != b[0] then Less(a[0], b[0])
    else LexLe(a[1..], b[1..])
  }

  /** So the least order is one order, whatever order the maps are read in. */
  lemma {:induction false} LexLeAntisymmetric(a: seq<Node>, b: seq<Node>)
    requires LexLe(a, b) && LexLe(b, a)
    ensures a == b
  {
    if a != [] && b != [] {
      LessTrichotomy(a[0], b[0]);
      LexLeAntisymmetric(a[1..], b[1..]);
      assert a == [a[0]] + a[1..] && b == [b[0]] + b[1..];
    }
  }

  // ----- greedy choice

  /** All predecessors of `v` are placed, and `v` is not. */
  ghost predicate Available(g: Digraph, placed: seq<Node>, v: Node)
  {
    v in Nodes(g) && v !in placed && forall u :: Edge(g, u, v) ==> u in placed
  }

  ghost predicate LeastAvailable(g: Digraph, placed: seq<Node>, v: Node)
  {
    Available(g, placed, v) && forall w :: Available(g, placed, w) && w != v ==> Less(v, w)
  }

  /** Each node was the least one available when it was placed. */
  ghost predicate Greedy(g: Digraph, order: seq<Node>)
  {
    forall i :: 0 <= i < |order| ==> LeastAvailable(g, order[..i], order[i])
  }

  lemma GreedyExtends(g: Digraph, order: seq<Node>, n: Node)
    requires Greedy(g, order) && LeastAvailable(g, order, n)
    ensures Greedy(g, order + [n])
  {
    var more := order + [n];
    forall i | 0 <= i < |more|
      ensures LeastAvailable(g, more[..i], more[i])
    {
      assert more[..i] == order[..i];
      assert order[..|order|] == order;
    }
  }

  lemma GreedyFacts(g: Digraph, order: seq<Node>)
    requires Greedy(g, order)
    ensures Distinct(order) && Members(order) <= Nodes(g)
    ensures forall i, j :: 0 <= i < |order| && 0 <= j < |order| && Edge(g, order[i], order[j]) ==> i < j
    ensures forall u, v :: v in order && Edge(g, u, v) ==> u in order
  {
    forall i, j | 0 <= i < j < |order|
      ensures order[i] != order[j]
    {
      assert order[..j][i] == order[i];
      assert LeastAvailable(g, order[..j], order[j]);
    }
    forall i, j | 0 <= i < |order| && 0 <= j < |order| && Edge(g, order[i], order[j])
      ensures i < j
    {
      assert LeastAvailable(g, order[..j], order[j]);
      var k :| 0 <= k < j && order[..j][k] == order[i];
    }
    forall u, v | v in order && Edge(g, u, v)
      ensures u in order
    {
      var j :| 0 <= j < |order| && order[j] == v;
      assert LeastAvailable(g, order[..j], order[j]);
      assert u in order[..j];
    }
  }

  /** In a topological order every node is available when its turn comes. */
  lemma TopologicalIsAvailable(g: Digraph, o: seq<Node>, i: nat)
    requires IsTopological(g, o) && i < |o|
    ensures Available(g, o[..i], o[i])
  {
    assert o[i] in Members(o);
    forall u | Edge(g, u, o[i])
      ensures u in o[..i]
    {
      EdgeInside(g, u, o[i]);
      assert u in Members(o);
      var k :| 0 <= k < |o| && o[k] == u;
      assert o[..i][k] == u;
    }
  }

  lemma GreedyBeats(g: Digraph, order: seq<Node>, o: seq<Node>, i: nat)
    requires Greedy(g, order) && IsTopological(g, o) && i < |o| && i < |order| && order[..i] == o[..i]
    ensures order[i] == o[i] || Less(order[i], o[i])
  {
    TopologicalIsAvailable(g, o, i);
    assert LeastAvailable(g, order[..i], order[i]);
  }

  /** Never behind at a first difference means never later in the order. */
  lemma {:induction false} LexLePointwise(a: seq<Node>, b: seq<Node>, i: nat)
    requires |a| == |b| && i <= |a| && a[..i] == b[..i]
    requires forall k :: 0 <= k < |a| && a[..k] == b[..k] ==> a[k] == b[k] || Less(a[k], b[k])
    ensures LexLe(a[i..], b[i..])
    decreases |a| - i
  {
    if i < |a| {
      assert a[i..][1..] == a[i + 1..] && b[i..][1..] == b[i + 1..];
      if a[i] == b[i] {
        assert a[..i + 1] == a[..i] + [a[i]] && b[..i + 1] == b[..i] + [b[i]];
        LexLePointwise(a, b, i + 1);
      }
    }
  }

  /** The greedy order is no later than any other: at the first difference it took the least available node. */
  lemma GreedyIsLeast(g: Digraph, order: seq<Node>, o: seq<Node>)
    requires Greedy(g, order) && IsTopological(g, order) && IsTopological(g, o)
    ensures LexLe(order, o)
  {
    SameSize(order, o);
    forall k | 0 <= k < |order| && order[..k] == o[..k]
      ensures order[k] == o[k] || Less(order[k], o[k])
    {
      GreedyBeats(g, order, o, k);
    }
    LexLePointwise(order, o, 0);
    assert order[0..] == order && o[0..] == o;
  }

  lemma SameSize(a: seq<Node>, b: seq<Node>)
    requires Distinct(a) && Distinct(b) && Members(a) == Members(b)
    ensures |a| == |b|
  {
    DistinctSize(a, Members(a));
    DistinctSize(b, Members(b));
    MembersSize(a);
    MembersSize(b);
  }

  // ----- cycles

  lemma {:induction false} ForwardChain(g: Digraph, o: seq<Node>, p: seq<Node>, i: nat, j: nat, a: nat, b: nat)
    requires IsTopological(g, o) && Chain(g, p) && i < j < |p|
    requires a < |o| && b < |o| && o[a] == p[i] && o[b] == p[j]
    ensures a < b
    decreases j - i
  {
    assert Edge(g, p[j - 1], p[j - 1 + 1]);
    EdgeInside(g, p[j - 1], p[j]);
    assert p[j - 1] in Members(o);
    var c :| 0 <= c < |o| && o[c] == p[j - 1];
    if i < j - 1 {
      ForwardChain(g, o, p, i, j - 1, a, c);
    }
  }

  lemma TopologicalMeansAcyclic(g: Digraph, o: seq<Node>)
    requires IsTopological(g, o)
    ensures !HasCycle(g)
  {
    forall p | |p| > 1 && Chain(g, p)
      ensures p[0] != p[|p| - 1]
    {
      assert Edge(g, p[0], p[0 + 1]);
      EdgeInside(g, p[0], p[1]);
      assert p[0] in Members(o);
      var a :| 0 <= a < |o| && o[a] == p[0];
      if p[0] == p[|p| - 1] {
        ForwardChain(g, o, p, 0, |p| - 1, a, a);
      }
    }
  }

  ghost predicate HasPredecessor(g: Digraph, s: set<Node>, v: Node)
  {
    exists u :: u in s && Edge(g, u, v)
  }

  ghost predicate NoFirst(g: Digraph, s: set<Node>)
  {
    forall v {:trigger HasPredecessor(g, s, v)} :: v in s ==> HasPredecessor(g, s, v)
  }

  /** Walking backwards inside a set where everyone has a predecessor. */
  lemma {:induction false} BackwardChain(g: Digraph, s: set<Node>, n: nat) returns (p: seq<Node>)
    requires s != {} && NoFirst(g, s)
    ensures |p| == n + 1 && Chain(g, p) && forall i :: 0 <= i < |p| ==> p[i] in s
  {
    if n == 0 {
      var x :| x in s;
      p := [x];
    } else {
      var q := BackwardChain(g, s, n - 1);
      assert HasPredecessor(g, s, q[0]);
      var u :| u in s && Edge(g, u, q[0]);
      p := [u] + q;
    }
  }

  /** A nonempty set without a first node contains a cycle. */
  lemma StuckMeansCycle(g: Digraph, s: set<Node>)
    requires s != {} && NoFirst(g, s)
    ensures HasCycle(g)
  {
    var p := BackwardChain(g, s, |s|);
    if Distinct(p) {
      DistinctSize(p, s);
      assert false;
    }
    var i, j :| 0 <= i < j < |p| && p[i] == p[j];
    ReturnIsCycle(g, p, i, j);
  }

  lemma ReturnIsCycle(g: Digraph, p: seq<Node>, i: nat, j: nat)
    requires Chain(g, p) && i < j < |p| && p[i] == p[j]
    ensures HasCycle(g)
  {
    var loop := p[i..j + 1];
    forall k | 0 <= k < |loop| - 1
      ensures Edge(g, loop[k], loop[k + 1])
    {
      assert Edge(g, p[i + k], p[i + k + 1]);
    }
    assert |loop| > 1 && Chain(g, loop) && loop[0] == loop[|loop| - 1];
  }

  // ----- in-degrees

  /** How often `v` occurs among the successors of a node. */
  ghost function Arrows(g: Digraph, v: Node): Node -> int
  {
    u => multiset(Successors(g, u))[v]
  }

  /** The edges into `v` from `rest`, duplicates counted. */
  ghost function Waiting(g: Digraph, rest: set<Node>, v: Node): int
  {
    Sum(Arrows(g, v), rest)
  }

  lemma {:induction false} WaitingZero(g: Digraph, rest: set<Node>, v: Node)
    ensures Waiting(g, rest, v) >= 0
    ensures Waiting(g, rest, v) == 0 <==> forall u :: u in rest ==> !Edge(g, u, v)
    decreases rest
  {
    if rest == {} {
    } else {
      var u :| u in rest;
      SumRemove(Arrows(g, v), rest, u);
      WaitingZero(g, rest - {u}, v);
      assert Edge(g, u, v) <==> multiset(Successors(g, u))[v] > 0;
    }
  }

  function Degree(inDegree: map<Node, int>, v: Node): int
  {
    if v in inDegree then inDegree[v] else 0
  }

  /** Counts the edges into every node; the rows come in any order. */
  method InDegrees(g: Digraph) returns (inDegree: map<Node, int>)
    ensures forall v :: Degree(inDegree, v) == Waiting(g, Nodes(g), v)
  {
    inDegree := map[];
    var todo := g.Keys;
    while todo != {}
      invariant todo <= g.Keys
      invariant forall v :: Degree(inDegree, v) == Waiting(g, g.Keys - todo, v)
      decreases todo
    {
      var from :| from in todo;
      inDegree := CountRow(g[from], inDegree);
      forall v
        ensures Degree(inDegree, v) == Waiting(g, g.Keys - (todo - {from}), v)
      {
        SumRemove(Arrows(g, v), g.Keys - (todo - {from}), from);
        assert g.Keys - (todo - {from}) - {from} == g.Keys - todo;
      }
      todo := todo - {from};
    }
    forall v
      ensures Waiting(g, g.Keys, v) == Waiting(g, Nodes(g), v)
    {
      SumUnion(Arrows(g, v), g.Keys, Nodes(g) - g.Keys);
      assert g.Keys + (Nodes(g) - g.Keys) == Nodes(g);
      WaitingZero(g, Nodes(g) - g.Keys, v);
    }
    assert g.Keys - {} == g.Keys;
  }

  method CountRow(outs: seq<Node>, inDegree0: map<Node, int>) returns (inDegree: map<Node, int>)
    ensures forall v :: Degree(inDegree, v) == Degree(inDegree0, v) + multiset(outs)[v]
  {
    inDegree := inDegree0;
    for i := 0 to |outs|
      invariant forall v :: Degree(inDegree, v) == Degree(inDegree0, v) + multiset(outs[..i])[v]
    {
      inDegree := inDegree[outs[i] := Degree(inDegree, outs[i]) + 1];
      assert outs[..i + 1] == outs[..i] + [outs[i]];
    }
    assert outs[..|outs|] == outs;
  }

  // ----- the main loop

  /** The frontier holds, in increasing order, the unplaced nodes with no edge left to wait for. */
  ghost predicate Frontier(g: Digraph, placed: set<Node>, inDegree: map<Node, int>, queue: seq<Node>)
  {
    && StrictlySorted(Less, queue)
    && forall v :: v in queue <==> v in Nodes(g) && v !in placed && Degree(inDegree, v) == 0
  }

  ghost predicate Counted(g: Digraph, rest: set<Node>, left: multiset<Node>, inDegree: map<Node, int>)
  {
    forall v :: Degree(inDegree, v) == Waiting(g, rest, v) + left[v]
  }

  lemma FrontierIsAvailable(g: Digraph, order: seq<Node>, inDegree: map<Node, int>, queue: seq<Node>, v: Node)
    requires Counted(g, Nodes(g) - Members(order), multiset{}, inDegree)
    requires Frontier(g, Members(order), inDegree, queue)
    ensures v in queue <==> Available(g, order, v)
  {
    var rest := Nodes(g) - Members(order);
    WaitingZero(g, rest, v);
    assert Degree(inDegree, v) == Waiting(g, rest, v);
    forall u | Edge(g, u, v)
      ensures u in rest || u in order
    {
      EdgeInside(g, u, v);
    }
  }

  lemma FirstIsLeast(g: Digraph, order: seq<Node>, inDegree: map<Node, int>, queue: seq<Node>)
    requires Counted(g, Nodes(g) - Members(order), multiset{}, inDegree)
    requires Frontier(g, Members(order), inDegree, queue) && |queue| > 0
    ensures LeastAvailable(g, order, queue[0])
  {
    FrontierIsAvailable(g, order, inDegree, queue, queue[0]);
    forall w | Available(g, order, w) && w != queue[0]
      ensures Less(queue[0], w)
    {
      FrontierIsAvailable(g, order, inDegree, queue, w);
    }
  }

  lemma FrontierRest(g: Digraph, placed: set<Node>, inDegree: map<Node, int>, queue: seq<Node>)
    requires Frontier(g, placed, inDegree, queue) && |queue| > 0
    ensures Frontier(g, placed + {queue[0]}, inDegree, queue[1..])
  {
    LessTrichotomy(queue[0], queue[0]);
    forall i | 0 < i < |queue|
      ensures queue[i] != queue[0]
    {
      assert Less(queue[0], queue[i]);
    }
    assert queue == [queue[0]] + queue[1..];
  }

  /** One decrement, with the re-sort when the count reaches zero. */
  lemma FrontierStep(g: Digraph, placed: set<Node>, inDegree: map<Node, int>, queue: seq<Node>, to: Node)
    requires Frontier(g, placed, inDegree, queue)
    requires to in Nodes(g) && to !in placed && Degree(inDegree, to) > 0
    ensures var d := Degree(inDegree, to) - 1;
            Frontier(g, placed, inDegree[to := d], if d == 0 then Sort(Less, queue + [to]) else queue)
  {
    if Degree(inDegree, to) == 1 {
      SortedWith(queue, to);
    }
  }

  /** A strictly sorted list with one more name, sorted again. */
  lemma SortedWith(queue: seq<Node>, to: Node)
    requires StrictlySorted(Less, queue) && to !in queue
    ensures StrictlySorted(Less, Sort(Less, queue + [to]))
    ensures forall v :: v in Sort(Less, queue + [to]) <==> v in queue || v == to
  {
    var sorted := Sort(Less, queue + [to]);
    StrictlySortedDistinct(queue);
    assert Distinct(queue + [to]);
    SortStrings(queue + [to]);
    forall v
      ensures v in sorted <==> v in queue || v == to
    {
      assert v in sorted <==> v in Members(sorted);
      assert v in queue + [to] <==> v in Members(queue + [to]);
    }
  }

  lemma CountedStep(g: Digraph, rest: set<Node>, left: multiset<Node>, inDegree: map<Node, int>, to: Node)
    requires Counted(g, rest, left, inDegree) && left[to] > 0
    ensures Degree(inDegree, to) > 0
    ensures Counted(g, rest, left - multiset{to}, inDegree[to := Degree(inDegree, to) - 1])
  {
    WaitingZero(g, rest, to);
    assert Degree(inDegree, to) == Waiting(g, rest, to) + left[to];
  }

  lemma CountedSplit(g: Digraph, rest: set<Node>, n: Node, inDegree: map<Node, int>)
    requires n !in rest && Counted(g, rest + {n}, multiset{}, inDegree)
    ensures Counted(g, rest, multiset(Successors(g, n)), inDegree)
  {
    forall v
      ensures Waiting(g, rest + {n}, v) == Waiting(g, rest, v) + multiset(Successors(g, n))[v]
    {
      SumRemove(Arrows(g, v), rest + {n}, n);
      assert rest + {n} - {n} == rest;
    }
  }

  /** Counts down one edge into `to`; at zero `to` joins the frontier, which is sorted again. */
  method ReleaseOne(g: Digraph, ghost placed: set<Node>, ghost rest: set<Node>, ghost left: multiset<Node>, to: Node,
                    inDegree0: map<Node, int>, queue0: seq<Node>)
    returns (inDegree: map<Node, int>, queue: seq<Node>)
    requires to in Nodes(g) && to !in placed && left[to] > 0
    requires Counted(g, rest, left, inDegree0) && Frontier(g, placed, inDegree0, queue0)
    ensures Counted(g, rest, left - multiset{to}, inDegree) && Frontier(g, placed, inDegree, queue)
  {
    CountedStep(g, rest, left, inDegree0, to);
    FrontierStep(g, placed, inDegree0, queue0, to);
    inDegree := inDegree0[to := Degree(inDegree0, to) - 1];
    queue := if inDegree[to] == 0 then Sort(Less, queue0 + [to]) else queue0;
  }

  /** Releases the successors of `n`, duplicates included. */
  method Release(g: Digraph, ghost placed: set<Node>, n: Node, inDegree0: map<Node, int>, queue0: seq<Node>)
    returns (inDegree: map<Node, int>, queue: seq<Node>)
    requires n in Nodes(g) && n in placed
    requires Counted(g, Nodes(g) - placed + {n}, multiset{}, inDegree0)
    requires Frontier(g, placed, inDegree0, queue0)
    requires forall v :: Edge(g, n, v) ==> v !in placed
    ensures Counted(g, Nodes(g) - placed, multiset{}, inDegree)
    ensures Frontier(g, placed, inDegree, queue)
  {
    ghost var rest := Nodes(g) - placed;
    var outs := Sort(Less, Successors(g, n));
    CountedSplit(g, rest, n, inDegree0);
    inDegree, queue := inDegree0, queue0;
    assert outs[0..] == outs;
    for i := 0 to |outs|
      invariant Counted(g, rest, multiset(outs[i..]), inDegree)
      invariant Frontier(g, placed, inDegree, queue)
    {
      ghost var left := multiset(outs[i..]);
      Outgoing(g, n, outs, i);
      inDegree, queue := ReleaseOne(g, placed, rest, left, outs[i], inDegree, queue);
    }
    assert outs[|outs|..] == [];
  }

  lemma Outgoing(g: Digraph, n: Node, outs: seq<Node>, i: nat)
    requires multiset(outs) == multiset(Successors(g, n)) && i < |outs|
    ensures Edge(g, n, outs[i]) && outs[i] in Nodes(g)
    ensures multiset(outs[i..])[outs[i]] > 0 && multiset(outs[i..]) - multiset{outs[i]} == multiset(outs[i + 1..])
  {
    assert outs[i] in multiset(Successors(g, n));
    EdgeInside(g, n, outs[i]);
    assert outs[i..] == [outs[i]] + outs[i + 1..];
  }

  /** The nodes that wait for nothing, sorted. */
  method InitialFrontier(g: Digraph, inDegree: map<Node, int>) returns (queue: seq<Node>)
    ensures Frontier(g, {}, inDegree, queue)
  {
    queue := [];
    var todo := Nodes(g);
    while todo != {}
      invariant todo <= Nodes(g) && Distinct(queue)
      invariant forall v :: v in queue <==> v in Nodes(g) && v !in todo && Degree(inDegree, v) == 0
      decreases todo
    {
      var n :| n in todo;
      todo := todo - {n};
      if Degree(inDegree, n) == 0 {
        queue := queue + [n];
      }
    }
    SortStrings(queue);
    ghost var sorted := Sort(Less, queue);
    assert forall v :: v in sorted <==> v in Members(sorted);
    assert forall v :: v in queue <==> v in Members(queue);
    queue := Sort(Less, queue);
  }

  method TopologicalSort(g: Digraph) returns (order: seq<Node>, ok: bool)
    ensures ok <==> !HasCycle(g)
    ensures ok ==> IsTopological(g, order)
    ensures ok ==> forall o :: IsTopological(g, o) ==> LexLe(order, o)
    ensures !ok ==> order == []
  {
    var inDegree := InDegrees(g);
    var queue := InitialFrontier(g, inDegree);
    order := [];
    assert Members(order) == {};
    assert Nodes(g) - {} == Nodes(g);
    while |queue| > 0
      invariant Greedy(g, order)
      invariant Counted(g, Nodes(g) - Members(order), multiset{}, inDegree)
      invariant Frontier(g, Members(order), inDegree, queue)
      decreases Nodes(g) - Members(order)
    {
      var n := queue[0];
      Place(g, order, inDegree, queue);
      order := order + [n];
      inDegree, queue := Release(g, Members(order), n, inDegree, queue[1..]);
    }
    GreedyFacts(g, order);
    if |order| != |Nodes(g)| {
      StuckAt(g, order, inDegree, queue);
      return [], false;
    }
    FullOrder(g, order);
    TopologicalMeansAcyclic(g, order);
    forall o | IsTopological(g, o)
      ensures LexLe(order, o)
    {
      GreedyIsLeast(g, order, o);
    }
    ok := true;
  }

  /** Placing the first node of the frontier; its own successors are not placed yet. */
  lemma Place(g: Digraph, order: seq<Node>, inDegree: map<Node, int>, queue: seq<Node>)
    requires Greedy(g, order) && |queue| > 0
    requires Counted(g, Nodes(g) - Members(order), multiset{}, inDegree)
    requires Frontier(g, Members(order), inDegree, queue)
    ensures var n := queue[0];
            && n in Nodes(g) && n !in Members(order) && Greedy(g, order + [n])
            && Members(order + [n]) == Members(order) + {n}
            && Counted(g, Nodes(g) - Members(order + [n]) + {n}, multiset{}, inDegree)
            && Frontier(g, Members(order + [n]), inDegree, queue[1..])
            && forall v :: Edge(g, n, v) ==> v !in Members(order + [n])
  {
    var n := queue[0];
    FirstIsLeast(g, order, inDegree, queue);
    GreedyExtends(g, order, n);
    NotPlacedYet(g, order, n);
    assert Members(order + [n]) == Members(order) + {n};
    assert Nodes(g) - Members(order + [n]) + {n} == Nodes(g) - Members(order);
    FrontierRest(g, Members(order), inDegree, queue);
  }

  lemma NotPlacedYet(g: Digraph, before: seq<Node>, n: Node)
    requires Greedy(g, before + [n])
    ensures forall v :: Edge(g, n, v) ==> v !in before + [n]
  {
    var order := before + [n];
    GreedyFacts(g, order);
    forall j | 0 <= j < |order|
      ensures !Edge(g, n, order[j])
    {
      assert order[|before|] == n;
    }
  }

  lemma FullOrder(g: Digraph, order: seq<Node>)
    requires Distinct(order) && Members(order) <= Nodes(g) && |order| == |Nodes(g)|
    ensures Members(order) == Nodes(g)
  {
    DistinctSize(order, Members(order));
    if x :| x in Nodes(g) && x !in Members(order) {
      SubsetCard(Members(order), Nodes(g), x);
    }
  }

  lemma StuckAt(g: Digraph, order: seq<Node>, inDegree: map<Node, int>, queue: seq<Node>)
    requires Distinct(order) && |order| != |Nodes(g)| && queue == []
    requires Counted(g, Nodes(g) - Members(order), multiset{}, inDegree)
    requires Frontier(g, Members(order), inDegree, queue) && Members(order) <= Nodes(g)
    ensures HasCycle(g)
  {
    var rest := Nodes(g) - Members(order);
    DistinctSize(order, Members(order));
    MembersSize(order);
    assert rest == {} ==> Members(order) == Nodes(g);
    forall v {:trigger HasPredecessor(g, rest, v)} | v in rest
      ensures HasPredecessor(g, rest, v)
    {
      Blocked(g, order, inDegree, queue, v);
    }
    StuckMeansCycle(g, rest);
  }

  lemma Blocked(g: Digraph, order: seq<Node>, inDegree: map<Node, int>, queue: seq<Node>, v: Node)
    requires Counted(g, Nodes(g) - Members(order), multiset{}, inDegree) && queue == []
    requires Frontier(g, Members(order), inDegree, queue)
    requires v in Nodes(g) && v !in order
    ensures HasPredecessor(g, Nodes(g) - Members(order), v)
  {
    FrontierIsAvailable(g, order, inDegree, queue, v);
    var u :| Edge(g, u, v) && u !in order;
    EdgeInside(g, u, v);
  }

  lemma {:induction false} MembersSize(s: seq<Node>)
    ensures |Members(s)| <= |s|
  {
    if s == [] {
    } else {
      MembersSize(s[1..]);
      assert Members(s) == {s[0]} + Members(s[1..]);
    }
  }
}

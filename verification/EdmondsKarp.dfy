/** The max-flow and min-cut loops of the graph package. */
module EdmondsKarp {
  import opened Collections
  import opened Sums
  import opened FlowNetworks
  import opened Residuals

  // ----- breadth-first search in the residual network

  /** Every labelled node but the source hangs one level below its parent, on a residual edge. */
  ghost predicate Tree(res: Network, source: Node, parent: map<Node, Node>, level: map<Node, nat>)
  {
    && source in level && level[source] == 0 && level.Keys == parent.Keys + {source}
    && forall v {:trigger Hangs(res, parent, level, v)} :: v in level && v != source ==> Hangs(res, parent, level, v)
  }

  ghost predicate Hangs(res: Network, parent: map<Node, Node>, level: map<Node, nat>, v: Node)
  {
    && v in level && v in parent && parent[v] in level
    && level[v] == level[parent[v]] + 1 && Cap(res, parent[v], v) > 0
  }

  /** The waiting nodes come in level order and span at most two levels, starting at `low`. */
  ghost predicate Layered(queue: seq<Node>, level: map<Node, nat>, low: nat)
  {
    && (forall i :: 0 <= i < |queue| ==> queue[i] in level && low <= level[queue[i]] <= low + 1)
    && (forall i, j :: 0 <= i < j < |queue| ==> level[queue[i]] <= level[queue[j]] && queue[i] != queue[j])
  }

  /** The neighbours of a handled node are labelled, at most one level down. */
  ghost predicate Handled(res: Network, level: map<Node, nat>, done: set<Node>)
  {
    forall u, v :: u in done && Cap(res, u, v) > 0 ==> u in level && v in level && level[v] <= level[u] + 1
  }

  ghost predicate Partition(seen: set<Node>, done: set<Node>, active: set<Node>, queue: seq<Node>)
  {
    && seen == done + active + Members(queue)
    && done + active !! Members(queue) && done !! active
  }

  /** The search so far: `done` nodes are handled, `active` ones are being handled, queued ones wait. */
  ghost predicate Searching(res: Network, source: Node, sink: Node, parent: map<Node, Node>, level: map<Node, nat>,
                            queue: seq<Node>, done: set<Node>, active: set<Node>, low: nat)
  {
    && Tree(res, source, parent, level)
    && Layered(queue, level, low)
    && Partition(level.Keys, done, active, queue)
    && (forall u :: u in done ==> level[u] <= low)
    && (forall u :: u in active ==> level[u] == low)
    && Handled(res, level, done)
    && (sink == source || sink !in level)
    && level.Keys <= Nodes(res) + {source}
  }

  lemma Dequeue(res: Network, source: Node, sink: Node, parent: map<Node, Node>, level: map<Node, nat>,
                queue: seq<Node>, done: set<Node>, low: nat)
    requires Searching(res, source, sink, parent, level, queue, done, {}, low)
    requires |queue| > 0
    ensures Searching(res, source, sink, parent, level, queue[1..], done, {queue[0]}, level[queue[0]])
  {
    assert Members(queue) == {queue[0]} + Members(queue[1..]);
  }

  lemma Enqueue(res: Network, source: Node, sink: Node, parent: map<Node, Node>, level: map<Node, nat>,
                queue: seq<Node>, done: set<Node>, u: Node, low: nat, v: Node)
    requires u in level && level[u] == low && Searching(res, source, sink, parent, level, queue, done, {u}, low)
    requires v !in level && v != sink && Cap(res, u, v) > 0
    ensures Searching(res, source, sink, parent[v := u], level[v := low + 1], queue + [v], done, {u}, low)
  {
    var grown := level[v := low + 1];
    assert Tree(res, source, parent[v := u], grown) by {
      TreeGrows(res, source, parent, level, u, v);
    }
    assert Layered(queue + [v], grown, low) by {
      LayeredGrows(queue, level, low, v);
    }
    assert Handled(res, grown, done) by {
      HandledGrows(res, level, done, v, low + 1);
    }
    assert grown.Keys == level.Keys + {v};
    PartitionGrows(level.Keys, done, {u}, queue, v);
  }

  lemma PartitionGrows(seen: set<Node>, done: set<Node>, active: set<Node>, queue: seq<Node>, v: Node)
    requires Partition(seen, done, active, queue) && v !in seen
    ensures Partition(seen + {v}, done, active, queue + [v])
  {
    assert Members(queue + [v]) == Members(queue) + {v};
  }

  lemma HandledGrows(res: Network, level: map<Node, nat>, done: set<Node>, v: Node, n: nat)
    requires Handled(res, level, done) && v !in level
    ensures Handled(res, level[v := n], done)
  {
  }

  lemma LayeredGrows(queue: seq<Node>, level: map<Node, nat>, low: nat, v: Node)
    requires Layered(queue, level, low) && v !in level
    ensures Layered(queue + [v], level[v := low + 1], low)
  {
  }

  lemma TreeGrows(res: Network, source: Node, parent: map<Node, Node>, level: map<Node, nat>, u: Node, v: Node)
    requires Tree(res, source, parent, level) && u in level && v !in level && Cap(res, u, v) > 0
    ensures Tree(res, source, parent[v := u], level[v := level[u] + 1])
  {
    var parent', level' := parent[v := u], level[v := level[u] + 1];
    forall x | x in level' && x != source
      ensures Hangs(res, parent', level', x)
    {
      assert x != v ==> Hangs(res, parent, level, x);
    }
  }

  lemma SeenIsNear(res: Network, source: Node, sink: Node, parent: map<Node, Node>, level: map<Node, nat>,
                   queue: seq<Node>, done: set<Node>, active: set<Node>, low: nat, v: Node)
    requires Searching(res, source, sink, parent, level, queue, done, active, low)
    requires v in level
    ensures level[v] <= low + 1
  {
    assert v in done || v in active || v in queue;
  }

  /** Follows one residual edge out of `u`: the end is new, or the sink, or was seen before. */
  method Visit(residual: Network, source: Node, sink: Node, u: Node, v: Node, parent0: map<Node, Node>,
               queue0: seq<Node>, ghost level0: map<Node, nat>, ghost done: set<Node>, ghost low: nat)
    returns (parent: map<Node, Node>, queue: seq<Node>, found: bool, ghost level: map<Node, nat>)
    requires u in level0 && level0[u] == low && Cap(residual, u, v) > 0
    requires Searching(residual, source, sink, parent0, level0, queue0, done, {u}, low)
    ensures found ==> sink != source && Tree(residual, source, parent, level) && sink in level
                      && Labelling(residual, level, level[sink])
    ensures !found ==> Searching(residual, source, sink, parent, level, queue, done, {u}, low)
    ensures v in level && level[v] <= low + 1
    ensures forall x :: x in level0 ==> x in level && level[x] == level0[x]
  {
    parent, queue, found, level := parent0, queue0, false, level0;
    if v in parent || v == source {
      SeenIsNear(residual, source, sink, parent, level, queue, done, {u}, low, v);
      return;
    }
    parent, level := parent[v := u], level[v := low + 1];
    if v == sink {
      SinkFound(residual, source, sink, parent0, level0, queue, done, u);
      found := true;
      return;
    }
    Enqueue(residual, source, sink, parent0, level0, queue0, done, u, low, v);
    queue := queue + [v];
  }

  /** Handles the row of `u`, whose entries come in any order; stops at the sink. */
  method ScanRow(residual: Network, source: Node, sink: Node, u: Node, parent0: map<Node, Node>, queue0: seq<Node>,
                 ghost level0: map<Node, nat>, ghost done: set<Node>, ghost low: nat)
    returns (parent: map<Node, Node>, queue: seq<Node>, found: bool, ghost level: map<Node, nat>)
    requires u in level0 && level0[u] == low
    requires Searching(residual, source, sink, parent0, level0, queue0, done, {u}, low)
    ensures found ==> sink != source && Tree(residual, source, parent, level) && sink in level
                      && Labelling(residual, level, level[sink])
    ensures !found ==> Searching(residual, source, sink, parent, level, queue, done + {u}, {}, low)
  {
    parent, queue, found, level := parent0, queue0, false, level0;
    var row := if u in residual then residual[u] else map[];
    var todo := row.Keys;
    while todo != {}
      invariant todo <= row.Keys
      invariant u in level && level[u] == low
      invariant Searching(residual, source, sink, parent, level, queue, done, {u}, low)
      invariant forall v :: v in row && v !in todo && row[v] > 0 ==> v in level && level[v] <= low + 1
      decreases todo
    {
      var v :| v in todo;
      todo := todo - {v};
      if row[v] > 0 {
        parent, queue, found, level := Visit(residual, source, sink, u, v, parent, queue, level, done, low);
        if found {
          return;
        }
      }
    }
    Retire(residual, source, sink, parent, level, queue, done, u);
  }

  ghost predicate HasWalk(res: Network, source: Node, sink: Node)
  {
    exists p :: Walk(res, p, source, sink)
  }

  /** The parent pointers lead from the sink back to the source along a walk that no other walk undercuts. */
  ghost predicate ShortestByParents(res: Network, parent: map<Node, Node>, source: Node, sink: Node)
  {
    exists p ::
      TreePath(parent, source, sink, p) && Walk(res, p, source, sink) && NoShorterWalk(res, source, sink, |p| - 1)
  }

  lemma FoundIsShortest(res: Network, source: Node, sink: Node, parent: map<Node, Node>, level: map<Node, nat>)
    requires Tree(res, source, parent, level) && sink in level && Labelling(res, level, level[sink])
    ensures HasWalk(res, source, sink) && ShortestByParents(res, parent, source, sink)
  {
    var p := PathOf(res, source, parent, level, sink);
    LabelsBoundWalks(res, level, level[sink], source, sink);
  }

  lemma NotFoundIsUnreachable(res: Network, source: Node, sink: Node, parent: map<Node, Node>, level: map<Node, nat>)
    requires Tree(res, source, parent, level) && Handled(res, level, level.Keys)
    ensures HasWalk(res, source, sink) ==> sink in level
  {
    if p :| Walk(res, p, source, sink) {
      FullSearchBounds(res, source, level, p, |p| - 1);
    }
  }

  /** A shortest path to the sink as parent pointers, or the news that there is none. */
  method BfsResidual(residual: Network, source: Node, sink: Node)
    returns (parent: map<Node, Node>, ok: bool, ghost level: map<Node, nat>)
    ensures ok <==> sink != source && HasWalk(residual, source, sink)
    ensures ok ==> ShortestByParents(residual, parent, source, sink)
    ensures Tree(residual, source, parent, level)
    ensures ok ==> sink != source && sink in level && Labelling(residual, level, level[sink])
    ensures !ok ==> (sink == source || sink !in level) && Handled(residual, level, level.Keys)
  {
    parent := map[];
    var queue := [source];
    level := map[source := 0];
    ghost var done: set<Node> := {};
    ghost var low := 0;
    assert Members(queue) == {source};
    while |queue| > 0
      invariant Searching(residual, source, sink, parent, level, queue, done, {}, low)
      decreases Nodes(residual) + {source} - done
    {
      Dequeue(residual, source, sink, parent, level, queue, done, low);
      var u := queue[0];
      low := level[u];
      parent, queue, ok, level := ScanRow(residual, source, sink, u, parent, queue[1..], level, done, low);
      if ok {
        FoundIsShortest(residual, source, sink, parent, level);
        return;
      }
      done := done + {u};
    }
    assert Members(queue) == {};
    ok := false;
    NotFoundIsUnreachable(residual, source, sink, parent, level);
  }

  lemma Retire(res: Network, source: Node, sink: Node, parent: map<Node, Node>, level: map<Node, nat>,
               queue: seq<Node>, done: set<Node>, u: Node)
    requires u in level && Searching(res, source, sink, parent, level, queue, done, {u}, level[u])
    requires forall v :: Cap(res, u, v) > 0 ==> v in level && level[v] <= level[u] + 1
    ensures Searching(res, source, sink, parent, level, queue, done + {u}, {}, level[u])
  {
  }

  /** When the sink turns up below the current level, the levels bound every residual edge. */
  lemma SinkFound(res: Network, source: Node, sink: Node, parent: map<Node, Node>, level: map<Node, nat>,
                  queue: seq<Node>, done: set<Node>, u: Node)
    requires u in level && Searching(res, source, sink, parent, level, queue, done, {u}, level[u])
    requires sink !in level && Cap(res, u, sink) > 0
    ensures Tree(res, source, parent[sink := u], level[sink := level[u] + 1])
    ensures Labelling(res, level[sink := level[u] + 1], level[u] + 1)
  {
    assert Tree(res, source, parent[sink := u], level[sink := level[u] + 1]) by {
      TreeGrows(res, source, parent, level, u, sink);
    }
    forall x | x in level && x !in done
      ensures level[u] <= level[x] <= level[u] + 1
    {
      assert x == u || x in queue;
    }
    SinkLabels(res, level, done, level[u], sink);
  }

  lemma SinkLabels(res: Network, level: map<Node, nat>, done: set<Node>, low: nat, sink: Node)
    requires sink !in level && Handled(res, level, done)
    requires forall u :: u in done ==> u in level && level[u] <= low
    requires forall u :: u in level && u !in done ==> low <= level[u] <= low + 1
    ensures Labelling(res, level[sink := low + 1], low + 1)
  {
  }

  // ----- augmenting along the tree path

  /** `path` runs from `source` to `sink` along the parent pointers. */
  ghost predicate TreePath(parent: map<Node, Node>, source: Node, sink: Node, path: seq<Node>)
  {
    && |path| > 0 && path[0] == source && path[|path| - 1] == sink && Distinct(path)
    && forall i :: 1 <= i < |path| ==> path[i] in parent && parent[path[i]] == path[i - 1]
  }

  /** The path the parent pointers describe is a shortest walk: as long as the level of its end. */
  lemma {:induction false} PathOf(res: Network, source: Node, parent: map<Node, Node>, level: map<Node, nat>, v: Node)
    returns (path: seq<Node>)
    requires Tree(res, source, parent, level) && v in level
    ensures TreePath(parent, source, v, path) && Walk(res, path, source, v) && |path| == level[v] + 1
    ensures forall i :: 0 <= i < |path| ==> path[i] in level && level[path[i]] == i
    decreases level[v]
  {
    if v == source {
      path := [v];
    } else {
      assert Hangs(res, parent, level, v);
      var front := PathOf(res, source, parent, level, parent[v]);
      path := front + [v];
    }
  }

  /** The least capacity on the path, or the largest 64-bit int when that is less. */
  ghost predicate IsBottleneck(res: Network, path: seq<Node>, b: int)
  {
    && b <= MAX_INT && Carries(res, path, b)
    && (b == MAX_INT || exists k :: 0 <= k < |path| - 1 && Cap(res, path[k], path[k + 1]) == b)
  }

  method Bottleneck(residual: Network, parent: map<Node, Node>, source: Node, sink: Node, ghost path: seq<Node>)
    returns (bottleneck: int)
    requires TreePath(parent, source, sink, path)
    ensures IsBottleneck(residual, path, bottleneck)
  {
    bottleneck := MAX_INT;
    var v := sink;
    ghost var i := |path| - 1;
    while v != source
      invariant 0 <= i < |path| && path[i] == v
      invariant bottleneck <= MAX_INT
      invariant forall k :: i <= k < |path| - 1 ==> bottleneck <= Cap(residual, path[k], path[k + 1])
      invariant bottleneck == MAX_INT ||
                exists k :: i <= k < |path| - 1 && Cap(residual, path[k], path[k + 1]) == bottleneck
      decreases i
    {
      assert path[i] in parent && parent[path[i]] == path[i - 1];
      i := i - 1;
      var u := parent[v];
      if Cap(residual, u, v) < bottleneck {
        bottleneck := Cap(residual, u, v);
      }
      v := u;
    }
    assert i == 0;
  }

  method Augment(residual: Network, parent: map<Node, Node>, source: Node, sink: Node, bottleneck: int,
                 ghost path: seq<Node>)
    returns (after: Network)
    requires TreePath(parent, source, sink, path)
    ensures after == Augmented(residual, path, 0, bottleneck)
  {
    after := residual;
    var v := sink;
    ghost var i := |path| - 1;
    while v != source
      invariant 0 <= i < |path| && path[i] == v
      invariant after == Augmented(residual, path, i, bottleneck)
      decreases i
    {
      assert path[i] in parent && parent[path[i]] == path[i - 1];
      i := i - 1;
      var u := parent[v];
      after := Push(after, u, v, bottleneck);
      v := u;
    }
    assert i == 0;
  }

  // ----- the augmentation loop

  method CloneFlow(net: Network) returns (out: Network)
    ensures out == net
  {
    out := map[];
    var todo := net.Keys;
    while todo != {}
      invariant todo <= net.Keys
      invariant out == map from | from in net && from !in todo :: net[from]
      decreases todo
    {
      var from :| from in todo;
      todo := todo - {from};
      out := out[from := net[from]];
    }
  }

  /** One batch of `edges` rounds for each unit of `length`. */
  ghost function Budget(length: nat, edges: nat): nat
  {
    if length == 0 then 0 else edges + Budget(length - 1, edges)
  }

  lemma {:induction false} BudgetGrows(a: nat, b: nat, edges: nat)
    requires a < b
    ensures Budget(a, edges) + edges <= Budget(b, edges)
  {
    if a + 1 < b {
      BudgetGrows(a, b - 1, edges);
    }
  }

  lemma {:induction false} BudgetIsProduct(length: nat, edges: nat)
    ensures Budget(length, edges) == length * edges
  {
    if length == 0 {
    } else {
      BudgetIsProduct(length - 1, edges);
      assert (length - 1) * edges + edges == length * edges;
    }
  }

  /** The accounting behind the iteration bound, for the current least walk length. */
  ghost predicate Paid(net: Network, res: Network, source: Node, sink: Node, length: nat, rounds: nat)
  {
    && length < |Universe(net, source, sink)|
    && rounds + |TightEdges(net, res, source, sink, length)| <= Budget(length, |Edges(net)|)
  }

  /** `s` is what `source` reaches over residual edges: the least closed set around it. */
  ghost predicate Closed(res: Network, s: set<Node>)
  {
    forall u, v :: u in s && Cap(res, u, v) > 0 ==> v in s
  }

  ghost predicate IsReach(res: Network, source: Node, s: set<Node>)
  {
    && source in s && Closed(res, s)
    && forall c :: source in c && Closed(res, c) ==> s <= c
  }

  lemma {:induction false} TreeInside(res: Network, source: Node, parent: map<Node, Node>, level: map<Node, nat>,
                                      c: set<Node>, v: Node)
    requires Tree(res, source, parent, level) && source in c && Closed(res, c) && v in level
    ensures v in c
    decreases level[v]
  {
    if v != source {
      assert Hangs(res, parent, level, v);
      TreeInside(res, source, parent, level, c, parent[v]);
    }
  }

  lemma ReachInside(net: Network, res: Network, source: Node, sink: Node, s: set<Node>)
    requires Inside(net, res) && IsReach(res, source, s)
    ensures s <= Universe(net, source, sink)
  {
    var all := Universe(net, source, sink);
    forall u, v | u in all && Cap(res, u, v) > 0
      ensures v in all
    {
      InsideNodes(net, res, u, v);
    }
  }

  /** When the sink is out of residual reach the flow is maximum and the reached side is the least minimum cut. */
  lemma StuckIsOptimal(net: Network, res: Network, source: Node, sink: Node, flow: int, s: set<Node>)
    requires WellFormed(net) && IsResidual(net, res) && Inside(net, res)
    requires NetFlow(net, source, sink, Pushed(net, res), flow)
    requires IsReach(res, source, s) && sink !in s
    ensures IsMaxFlowValue(net, source, sink, flow)
    ensures IsLeastMinCut(net, source, sink, s) && CutCapacity(net, source, sink, s) == flow
  {
    var g, all := Pushed(net, res), Universe(net, source, sink);
    ReachInside(net, res, source, sink, s);
    forall u, v | u in s && v in all && v !in s
      ensures g(u, v) == Cap(net, u, v)
    {
      assert 0 <= Cap(res, u, v);
    }
    NetFlowBelowCut(net, source, sink, g, flow, s);
    MeetingIsOptimal(net, source, sink, g, flow, s);
    forall c | IsCut(net, source, sink, c) && CutCapacity(net, source, sink, c) == flow
      ensures s <= c
    {
      NetFlowBelowCut(net, source, sink, g, flow, c);
      forall u, v | u in c && Cap(res, u, v) > 0
        ensures v in c
      {
        InsideNodes(net, res, u, v);
        assert v !in c ==> g(u, v) == Cap(net, u, v);
      }
    }
  }

  /** Raising the tracked length pays for a fresh set of tight edges. */
  lemma RaiseLength(net: Network, res: Network, source: Node, sink: Node, length: nat, top: nat, rounds: nat)
    requires Paid(net, res, source, sink, length, rounds) && length <= top < |Universe(net, source, sink)|
    requires |TightEdges(net, res, source, sink, top)| <= |Edges(net)|
    ensures Paid(net, res, source, sink, top, rounds)
  {
    if length < top {
      BudgetGrows(length, top, |Edges(net)|);
    }
  }

  ghost predicate NoShorterWalk(res: Network, source: Node, sink: Node, length: nat)
  {
    forall p :: Walk(res, p, source, sink) ==> length < |p|
  }

  /** Distances never decrease: the labels of the last search still bound every walk. */
  lemma LabelsBoundWalks(res: Network, level: map<Node, nat>, top: nat, source: Node, sink: Node)
    requires Labelling(res, level, top)
    requires Label(level, top, source) == 0 && Label(level, top, sink) == top
    ensures NoShorterWalk(res, source, sink, top)
  {
    forall p | Walk(res, p, source, sink)
      ensures top < |p|
    {
      WalkClimbs(res, p, level, top, 0, |p| - 1);
    }
  }

  /** A walk climbs at most one full-search level an edge, and never leaves the searched nodes. */
  lemma {:induction false} FullSearchBounds(res: Network, source: Node, level: map<Node, nat>, q: seq<Node>, i: nat)
    requires Handled(res, level, level.Keys) && source in level && level[source] == 0
    requires i < |q| && q[0] == source
    requires forall k :: 0 <= k < |q| - 1 ==> Cap(res, q[k], q[k + 1]) > 0
    ensures q[i] in level && level[q[i]] <= i
  {
    if i == 0 {
    } else {
      FullSearchBounds(res, source, level, q, i - 1);
      assert Cap(res, q[i - 1], q[i - 1 + 1]) > 0;
    }
  }

  /** On a shortest walk the position of a node is its distance. */
  lemma {:induction false} ShortestWalkLevels(res: Network, source: Node, sink: Node, parent: map<Node, Node>,
                                              level: map<Node, nat>, p: seq<Node>, k: nat)
    requires Tree(res, source, parent, level) && Handled(res, level, level.Keys)
    requires Walk(res, p, source, sink) && NoShorterWalk(res, source, sink, |p| - 1)
    requires k < |p|
    ensures p[k] in level && level[p[k]] == k
    decreases |p| - k
  {
    FullSearchBounds(res, source, level, p, k);
    if k == |p| - 1 {
      var tree := PathOf(res, source, parent, level, sink);
    } else {
      ShortestWalkLevels(res, source, sink, parent, level, p, k + 1);
      assert Cap(res, p[k], p[k + 1]) > 0;
    }
  }

  /**
   * Distances from the source never decrease: with `level` the distances before an augmentation along a shortest
   * path, every walk afterwards ends at a node that was already reachable, no nearer than it was.
   */
  lemma {:induction false} DistancesNeverDecrease(res: Network, source: Node, sink: Node, parent: map<Node, Node>,
                                                  level: map<Node, nat>, p: seq<Node>, b: int, q: seq<Node>, v: Node)
    requires Tree(res, source, parent, level) && Handled(res, level, level.Keys)
    requires Walk(res, p, source, sink) && Distinct(p) && NoShorterWalk(res, source, sink, |p| - 1) && b >= 0
    requires Walk(Augmented(res, p, 0, b), q, source, v)
    ensures v in level && level[v] <= |q| - 1
  {
    var after := Augmented(res, p, 0, b);
    forall x, y | x in level && Cap(after, x, y) > 0
      ensures y in level && level[y] <= level[x] + 1
    {
      AugmentedCap(res, p, 0, b, x, y);
      if Cap(res, x, y) <= 0 {
        var k :| 0 <= k < |p| - 1 && p[k] == y && p[k + 1] == x;
        ShortestWalkLevels(res, source, sink, parent, level, p, k);
        ShortestWalkLevels(res, source, sink, parent, level, p, k + 1);
      }
    }
    FullSearchBounds(after, source, level, q, |q| - 1);
  }

  // ----- the augmentations of a run

  /** Step `k` of a run fills a shortest path of the residual network it meets. */
  ghost predicate AugmentedAt(source: Node, sink: Node, rs: seq<Network>, ps: seq<seq<Node>>, bs: seq<int>, k: nat)
    requires k < |ps| == |bs| && |rs| == |ps| + 1
  {
    && Walk(rs[k], ps[k], source, sink) && Distinct(ps[k]) && NoShorterWalk(rs[k], source, sink, |ps[k]| - 1)
    && IsBottleneck(rs[k], ps[k], bs[k]) && rs[k + 1] == Augmented(rs[k], ps[k], 0, bs[k])
  }

  ghost predicate Trace(net: Network, source: Node, sink: Node, rs: seq<Network>, ps: seq<seq<Node>>, bs: seq<int>)
  {
    && |ps| == |bs| && |rs| == |ps| + 1 && rs[0] == net
    && forall k {:trigger AugmentedAt(source, sink, rs, ps, bs, k)} ::
         0 <= k < |ps| ==> AugmentedAt(source, sink, rs, ps, bs, k)
  }

  function SumOf(bs: seq<int>): int
  {
    if bs == [] then 0 else SumOf(bs[..|bs| - 1]) + bs[|bs| - 1]
  }

  /** `res` is what some shortest augmentations leave, and `total` what they carried. */
  ghost predicate Traced(net: Network, source: Node, sink: Node, res: Network, total: int)
  {
    exists rs, ps, bs :: Trace(net, source, sink, rs, ps, bs) && rs[|ps|] == res && SumOf(bs) == total
  }

  /** A possible result before the counter wraps: shortest augmentations until none is left. */
  ghost predicate Outcome(net: Network, source: Node, sink: Node, total: int)
  {
    exists res :: Traced(net, source, sink, res, total) && !HasWalk(res, source, sink)
  }

  lemma TraceStarts(net: Network, source: Node, sink: Node)
    ensures Traced(net, source, sink, net, 0)
  {
    assert Trace(net, source, sink, [net], [], []);
  }

  lemma TraceExtends(net: Network, source: Node, sink: Node, res: Network, total: int, p: seq<Node>, b: int, more: int)
    requires Traced(net, source, sink, res, total) && more == total + b
    requires Walk(res, p, source, sink) && Distinct(p) && NoShorterWalk(res, source, sink, |p| - 1)
    requires IsBottleneck(res, p, b)
    ensures Traced(net, source, sink, Augmented(res, p, 0, b), more)
  {
    var rs, ps, bs :| Trace(net, source, sink, rs, ps, bs) && rs[|ps|] == res && SumOf(bs) == total;
    TraceAppend(net, source, sink, rs, ps, bs, p, b);
    assert (bs + [b])[..|bs|] == bs;
    assert (rs + [Augmented(res, p, 0, b)])[|ps + [p]|] == Augmented(res, p, 0, b);
  }

  lemma TraceAppend(net: Network, source: Node, sink: Node, rs: seq<Network>, ps: seq<seq<Node>>, bs: seq<int>,
                    p: seq<Node>, b: int)
    requires Trace(net, source, sink, rs, ps, bs)
    requires Walk(rs[|ps|], p, source, sink) && Distinct(p) && NoShorterWalk(rs[|ps|], source, sink, |p| - 1)
    requires IsBottleneck(rs[|ps|], p, b)
    ensures Trace(net, source, sink, rs + [Augmented(rs[|ps|], p, 0, b)], ps + [p], bs + [b])
  {
    var rs', ps', bs' := rs + [Augmented(rs[|ps|], p, 0, b)], ps + [p], bs + [b];
    forall k | 0 <= k < |ps'|
      ensures AugmentedAt(source, sink, rs', ps', bs', k)
    {
      if k < |ps| {
        assert AugmentedAt(source, sink, rs, ps, bs, k);
        assert rs'[k] == rs[k] && rs'[k + 1] == rs[k + 1] && ps'[k] == ps[k] && bs'[k] == bs[k];
      } else {
        assert rs'[k] == rs[|ps|] && ps'[k] == p && bs'[k] == b;
      }
    }
  }

  /** Beyond a set that no residual edge leaves there is nothing to walk to. */
  lemma {:induction false} StaysInside(res: Network, q: seq<Node>, side: set<Node>, k: nat)
    requires k < |q| && q[0] in side && Closed(res, side)
    requires forall i :: 0 <= i < |q| - 1 ==> Cap(res, q[i], q[i + 1]) > 0
    ensures q[k] in side
  {
    if k == 0 {
    } else {
      StaysInside(res, q, side, k - 1);
      assert Cap(res, q[k - 1], q[k - 1 + 1]) > 0;
    }
  }

  lemma NoWalkOut(res: Network, source: Node, sink: Node, side: set<Node>)
    requires source in side && sink !in side && Closed(res, side)
    ensures !HasWalk(res, source, sink)
  {
    if q :| Walk(res, q, source, sink) {
      StaysInside(res, q, side, |q| - 1);
    }
  }

  /** After `k` steps of a run the residual network is that of a flow worth what they carried. */
  ghost predicate CarriesAt(net: Network, source: Node, sink: Node, res: Network, bs: seq<int>)
  {
    Carrying(net, res, source, sink, SumOf(bs)) && Inside(net, res) && Ints(res)
  }

  lemma {:induction false} TraceCarries(net: Network, source: Node, sink: Node, rs: seq<Network>, ps: seq<seq<Node>>,
                                        bs: seq<int>, k: nat)
    requires WellFormed(net) && Ints(net) && source != sink && Trace(net, source, sink, rs, ps, bs) && k <= |ps|
    ensures CarriesAt(net, source, sink, rs[k], bs[..k])
  {
    if k == 0 {
      CarriesNothing(net, source, sink);
      assert bs[..0] == [];
    } else {
      TraceCarries(net, source, sink, rs, ps, bs, k - 1);
      TraceCarriesNext(net, source, sink, rs, ps, bs, k - 1, k);
    }
  }

  lemma CarriesNothing(net: Network, source: Node, sink: Node)
    requires WellFormed(net) && Ints(net)
    ensures CarriesAt(net, source, sink, net, [])
  {
    ZeroNetFlow(net, source, sink);
  }

  lemma TraceCarriesNext(net: Network, source: Node, sink: Node, rs: seq<Network>, ps: seq<seq<Node>>, bs: seq<int>,
                         k: nat, j: nat)
    requires WellFormed(net) && source != sink && Trace(net, source, sink, rs, ps, bs) && k < |ps| && j == k + 1
    requires CarriesAt(net, source, sink, rs[k], bs[..k])
    ensures CarriesAt(net, source, sink, rs[j], bs[..j])
  {
    var front, more := bs[..k], bs[..j];
    assert more == front + [bs[k]];
    assert AugmentedAt(source, sink, rs, ps, bs, k);
    CarriesNext(net, source, sink, rs[k], front, ps[k], bs[k], rs[j], more);
  }

  lemma CarriesNext(net: Network, source: Node, sink: Node, res: Network, bs: seq<int>, p: seq<Node>, b: int,
                    after: Network, more: seq<int>)
    requires WellFormed(net) && source != sink && CarriesAt(net, source, sink, res, bs) && more == bs + [b]
    requires Walk(res, p, source, sink) && Distinct(p) && IsBottleneck(res, p, b) && after == Augmented(res, p, 0, b)
    ensures CarriesAt(net, source, sink, after, more)
  {
    assert more[..|bs|] == bs;
    CarryStep(net, source, sink, res, SumOf(bs), p, b, SumOf(more));
  }

  lemma CarryStep(net: Network, source: Node, sink: Node, res: Network, total: int, p: seq<Node>, b: int, more: int)
    requires WellFormed(net) && source != sink && more == total + b
    requires Carrying(net, res, source, sink, total) && Inside(net, res) && Ints(res)
    requires Walk(res, p, source, sink) && Distinct(p) && IsBottleneck(res, p, b)
    ensures Carrying(net, Augmented(res, p, 0, b), source, sink, more)
    ensures Inside(net, Augmented(res, p, 0, b)) && Ints(Augmented(res, p, 0, b))
  {
    var critical := CriticalEdge(res, source, sink, p, b);
    forall k | 0 <= k < |p|
      ensures p[k] in Universe(net, source, sink)
    {
      WalkInside(net, res, source, sink, p, k);
    }
    AugmentedInside(net, res, p, b);
    CarryingContinues(net, res, source, sink, total, p, b, more);
  }

  lemma OutcomeIsMax(net: Network, source: Node, sink: Node, total: int)
    requires WellFormed(net) && Ints(net) && source != sink && Outcome(net, source, sink, total)
    ensures IsMaxFlowValue(net, source, sink, total)
  {
    var res :| Traced(net, source, sink, res, total) && !HasWalk(res, source, sink);
    var rs, ps, bs :| Trace(net, source, sink, rs, ps, bs) && rs[|ps|] == res && SumOf(bs) == total;
    TraceCarries(net, source, sink, rs, ps, bs, |ps|);
    assert bs[..|ps|] == bs;
    var side := WalkedSide(net, res, source);
    StuckIsOptimal(net, res, source, sink, total, side);
  }

  /** What the source can walk to. */
  lemma WalkedSide(net: Network, res: Network, source: Node) returns (side: set<Node>)
    requires Inside(net, res)
    ensures IsReach(res, source, side) && forall v :: v in side ==> HasWalk(res, source, v)
  {
    side := set v | v in Nodes(net) + {source} && HasWalk(res, source, v);
    assert Walk(res, [source], source, source);
    forall u, v | u in side && Cap(res, u, v) > 0
      ensures v in side
    {
      var p :| Walk(res, p, source, u);
      WalkOnward(res, p, source, u, v);
      InsideNodes(net, res, u, v);
    }
    forall c, v | source in c && Closed(res, c) && v in side
      ensures v in c
    {
      var p :| Walk(res, p, source, v);
      StaysInside(res, p, c, |p| - 1);
    }
  }

  lemma WalkOnward(res: Network, p: seq<Node>, source: Node, u: Node, v: Node)
    requires Walk(res, p, source, u) && Cap(res, u, v) > 0
    ensures HasWalk(res, source, v)
  {
    var q := p + [v];
    forall i | 0 <= i < |q| - 1
      ensures Cap(res, q[i], q[i + 1]) > 0
    {
      assert i < |p| - 1 ==> Cap(res, p[i], p[i + 1]) > 0;
    }
    assert Walk(res, q, source, v);
  }

  // ----- what the loop keeps

  /** The residual network is that of a flow worth `total`. */
  ghost predicate Carrying(net: Network, res: Network, source: Node, sink: Node, total: int)
  {
    && IsResidual(net, res)
    && (source != sink ==> NetFlow(net, source, sink, Pushed(net, res), total))
  }

  /** Everything the augmentation loop keeps: the accounting for any capacities, the flow for those that cannot wrap. */
  ghost predicate LoopInvariant(net: Network, res: Network, source: Node, sink: Node, total: nat, length: nat,
                                rounds: nat)
  {
    && Inside(net, res) && Ints(res)
    && NoShorterWalk(res, source, sink, length)
    && Paid(net, res, source, sink, length, rounds)
    && (source == sink ==> total == 0)
    && (WellFormed(net) ==> Carrying(net, res, source, sink, total))
    && Traced(net, source, sink, res, total)
  }

  lemma ZeroNetFlow(net: Network, source: Node, sink: Node)
    requires WellFormed(net)
    ensures NetFlow(net, source, sink, Pushed(net, net), 0)
  {
    forall u
      ensures Sum(Row(Pushed(net, net), u), Universe(net, source, sink)) == 0
    {
      SumZero(Row(Pushed(net, net), u), Universe(net, source, sink));
    }
  }

  lemma LoopStarts(net: Network, source: Node, sink: Node)
    requires Ints(net)
    ensures LoopInvariant(net, net, source, sink, 0, 0, 0)
  {
    if WellFormed(net) {
      ZeroNetFlow(net, source, sink);
    }
    assert source in Universe(net, source, sink);
    assert TightEdges(net, net, source, sink, 0) == {};
    TraceStarts(net, source, sink);
  }

  lemma {:induction false} SumZero(f: Node -> int, s: set<Node>)
    requires forall x :: f(x) == 0
    ensures Sum(f, s) == 0
    decreases s
  {
    if s == {} {
    } else {
      var x :| x in s;
      SumRemove(f, s, x);
      SumZero(f, s - {x});
    }
  }

  /** The accounting of one augmentation along a shortest path. */
  lemma LengthContinues(net: Network, res: Network, source: Node, sink: Node, length: nat, rounds: nat,
                        level: map<Node, nat>, path: seq<Node>, b: int, critical: nat)
    requires sink in level && source in level && level[source] == 0 && Labelling(res, level, level[sink])
    requires Inside(net, res) && Paid(net, res, source, sink, length, rounds) && length <= level[sink]
    requires Walk(res, path, source, sink) && Distinct(path) && |path| == level[sink] + 1
    requires Carries(res, path, b) && b > 0
    requires critical < |path| - 1 && Cap(res, path[critical], path[critical + 1]) == b
    requires forall k :: 0 <= k < |path| ==> path[k] in Universe(net, source, sink)
    ensures NoShorterWalk(Augmented(res, path, 0, b), source, sink, level[sink])
    ensures Paid(net, Augmented(res, path, 0, b), source, sink, level[sink], rounds + 1)
  {
    var top, all := level[sink], Universe(net, source, sink);
    DistinctSize(path, all);
    TightEdgesBound(net, res, level, top, source, sink);
    RaiseLength(net, res, source, sink, length, top, rounds);
    TightEdgesShrink(net, res, path, b, level, top, source, sink, critical);
    LabelsSurvive(res, path, b, level, top, source, sink);
    LabelsBoundWalks(Augmented(res, path, 0, b), level, top, source, sink);
  }

  lemma WalkInside(net: Network, res: Network, source: Node, sink: Node, path: seq<Node>, k: nat)
    requires Inside(net, res) && Walk(res, path, source, sink) && k < |path|
    ensures path[k] in Universe(net, source, sink)
  {
    if k > 0 {
      assert Cap(res, path[k - 1], path[k - 1 + 1]) > 0;
      InsideNodes(net, res, path[k - 1], path[k]);
    }
  }

  lemma CarryingContinues(net: Network, res: Network, source: Node, sink: Node, total: int, path: seq<Node>, b: int,
                          more: int)
    requires WellFormed(net) && Carrying(net, res, source, sink, total) && source != sink && more == total + b
    requires Walk(res, path, source, sink) && Distinct(path) && Carries(res, path, b) && b > 0
    requires forall k :: 0 <= k < |path| ==> path[k] in Universe(net, source, sink)
    ensures Carrying(net, Augmented(res, path, 0, b), source, sink, more)
  {
    AugmentedIsResidual(net, res, path, b);
    AugmentedNetFlow(net, source, sink, res, total, path, b);
  }

  /** One augmentation along a shortest path keeps the invariant, one round later. */
  lemma RoundPays(net: Network, res: Network, source: Node, sink: Node, total: nat, length: nat, rounds: nat,
                  level: map<Node, nat>, path: seq<Node>, b: int)
    returns (more: nat)
    requires LoopInvariant(net, res, source, sink, total, length, rounds)
    requires source != sink && sink in level && source in level && level[source] == 0
    requires Labelling(res, level, level[sink])
    requires Walk(res, path, source, sink) && Distinct(path) && |path| == level[sink] + 1
    requires IsBottleneck(res, path, b)
    ensures b > 0 && more == total + b
    ensures LoopInvariant(net, Augmented(res, path, 0, b), source, sink, more, level[sink], rounds + 1)
  {
    var critical := CriticalEdge(res, source, sink, path, b);
    more := total + b;
    forall k | 0 <= k < |path|
      ensures path[k] in Universe(net, source, sink)
    {
      WalkInside(net, res, source, sink, path, k);
    }
    LengthContinues(net, res, source, sink, length, rounds, level, path, b, critical);
    AugmentedInside(net, res, path, b);
    if WellFormed(net) {
      CarryingContinues(net, res, source, sink, total, path, b, more);
    }
    LabelsBoundWalks(res, level, level[sink], source, sink);
    TraceExtends(net, source, sink, res, total, path, b, more);
  }

  lemma ReachOfTree(res: Network, source: Node, parent: map<Node, Node>, level: map<Node, nat>)
    requires Tree(res, source, parent, level) && Handled(res, level, level.Keys)
    ensures IsReach(res, source, level.Keys)
  {
    forall c, v | source in c && Closed(res, c) && v in level
      ensures v in c
    {
      TreeInside(res, source, parent, level, c, v);
    }
  }

  /** Pushes as much as the found path takes. */
  method AugmentShortest(net: Network, residual0: Network, parent: map<Node, Node>, source: Node, sink: Node,
                         ghost total0: nat, ghost level: map<Node, nat>, ghost length: nat, ghost rounds0: nat)
    returns (residual: Network, bottleneck: nat, ghost total: nat, ghost rounds: nat)
    requires LoopInvariant(net, residual0, source, sink, total0, length, rounds0)
    requires source != sink && sink in level && Tree(residual0, source, parent, level)
    requires Labelling(residual0, level, level[sink])
    ensures total == total0 + bottleneck && rounds == rounds0 + 1
    ensures LoopInvariant(net, residual, source, sink, total, level[sink], rounds)
  {
    ghost var path := PathOf(residual0, source, parent, level, sink);
    bottleneck := Bottleneck(residual0, parent, source, sink, path);
    total := RoundPays(net, residual0, source, sink, total0, length, rounds0, level, path, bottleneck);
    residual := Augment(residual0, parent, source, sink, bottleneck, path);
    rounds := rounds0 + 1;
  }

  /** The counter differs from the total by whole turns of 64-bit arithmetic. */
  ghost predicate Counts(flow: Int64, total: int)
  {
    exists turns: nat :: total == flow + Turns(turns)
  }

  ghost function Turns(n: nat): int
  {
    if n == 0 then 0 else INT_RANGE + Turns(n - 1)
  }

  lemma {:induction false} TurnsWrap(flow: Int64, turns: nat)
    ensures Wrap(flow + Turns(turns)) == flow
  {
    if turns == 0 {
    } else {
      TurnsWrap(flow, turns - 1);
      WrapPeriod(flow + Turns(turns));
    }
  }

  lemma CountsIsWrap(flow: Int64, total: int)
    requires Counts(flow, total)
    ensures flow == Wrap(total)
  {
    var turns: nat :| total == flow + Turns(turns);
    TurnsWrap(flow, turns);
  }

  lemma {:induction false} WrapCounts(x: int)
    requires x >= -MAX_INT - 1
    ensures Counts(Wrap(x), x)
    decreases x + MAX_INT + 1
  {
    if x > MAX_INT {
      WrapCounts(x - INT_RANGE);
      var turns: nat :| x - INT_RANGE == Wrap(x - INT_RANGE) + Turns(turns);
      assert x == Wrap(x) + Turns(turns + 1);
    } else {
      assert x == Wrap(x) + Turns(0);
    }
  }

  lemma {:induction false} TurnsAdd(m: nat, n: nat)
    ensures Turns(m + n) == Turns(m) + Turns(n)
  {
    if m == 0 {
    } else {
      TurnsAdd(m - 1, n);
    }
  }

  /** The counter wraps, the ghost total does not. */
  method AddTo(flow0: Int64, amount: nat, ghost total0: int) returns (flow: Int64)
    requires Counts(flow0, total0)
    ensures Counts(flow, total0 + amount)
  {
    flow := Wrap(flow0 + amount);
    WrapCounts(flow0 + amount);
    ghost var m: nat :| total0 == flow0 + Turns(m);
    ghost var n: nat :| flow0 + amount == flow + Turns(n);
    TurnsAdd(m, n);
    assert total0 + amount == flow + Turns(m + n);
  }

  /** One pass of the loop: an augmentation along a shortest path, or the news that none is left. */
  method Round(net: Network, residual0: Network, source: Node, sink: Node, flow0: Int64, ghost total0: nat,
               ghost length0: nat, ghost rounds0: nat)
    returns (residual: Network, flow: Int64, more: bool, ghost total: nat, ghost length: nat, ghost rounds: nat,
             ghost side: set<Node>)
    requires LoopInvariant(net, residual0, source, sink, total0, length0, rounds0) && Counts(flow0, total0)
    ensures LoopInvariant(net, residual, source, sink, total, length, rounds) && Counts(flow, total)
    ensures rounds == rounds0 + if more then 1 else 0
    ensures !more ==> IsReach(residual, source, side) && (source == sink || sink !in side)
  {
    residual, flow, total, length, rounds, side := residual0, flow0, total0, length0, rounds0, {};
    ghost var level;
    var parent;
    parent, more, level := BfsResidual(residual, source, sink);
    if more {
      var bottleneck;
      length := level[sink];
      residual, bottleneck, total, rounds :=
        AugmentShortest(net, residual, parent, source, sink, total0, level, length0, rounds0);
      flow := AddTo(flow0, bottleneck, total0);
    } else {
      side := level.Keys;
      ReachOfTree(residual, source, parent, level);
    }
  }

  /** Augments until no residual walk is left; `rounds` counts the augmentations. */
  method Saturate(net: Network, source: Node, sink: Node)
    returns (residual: Network, flow: Int64, ghost total: nat, ghost rounds: nat, ghost side: set<Node>)
    requires Ints(net)
    ensures Inside(net, residual) && Counts(flow, total)
    ensures WellFormed(net) ==> Carrying(net, residual, source, sink, total)
    ensures source == sink ==> total == 0
    ensures Traced(net, source, sink, residual, total)
    ensures IsReach(residual, source, side) && (source == sink || sink !in side)
    ensures rounds <= Budget(|Universe(net, source, sink)|, |Edges(net)|)
  {
    residual := CloneFlow(net);
    flow := 0;
    total, rounds, side := 0, 0, {};
    assert total == flow + Turns(0);
    ghost var length := 0;
    ghost var bound := Budget(|Universe(net, source, sink)|, |Edges(net)|);
    LoopStarts(net, source, sink);
    var more := true;
    while more
      invariant LoopInvariant(net, residual, source, sink, total, length, rounds) && Counts(flow, total)
      invariant !more ==> IsReach(residual, source, side) && (source == sink || sink !in side)
      decreases more, bound - rounds
    {
      residual, flow, more, total, length, rounds, side :=
        Round(net, residual, source, sink, flow, total, length, rounds);
      RoundsBound(net, residual, source, sink, length, rounds);
    }
    RoundsBound(net, residual, source, sink, length, rounds);
  }

  lemma RoundsBound(net: Network, res: Network, source: Node, sink: Node, length: nat, rounds: nat)
    requires Paid(net, res, source, sink, length, rounds)
    ensures rounds <= Budget(|Universe(net, source, sink)|, |Edges(net)|)
  {
    BudgetGrows(length, |Universe(net, source, sink)|, |Edges(net)|);
  }

  /** The bottleneck is positive and is the capacity of an edge of the path. */
  lemma CriticalEdge(res: Network, source: Node, sink: Node, path: seq<Node>, b: int)
    returns (critical: nat)
    requires Ints(res) && source != sink
    requires Walk(res, path, source, sink) && IsBottleneck(res, path, b)
    ensures b > 0
    ensures critical < |path| - 1 && Cap(res, path[critical], path[critical + 1]) == b
  {
    if b == MAX_INT {
      critical := 0;
      assert Cap(res, path[0], path[0 + 1]) <= MAX_INT;
    } else {
      critical :| critical < |path| - 1 && Cap(res, path[critical], path[critical + 1]) == b;
    }
  }

  // ----- the two entry points

  /** Some cut, such as the source alone, has a capacity that a 64-bit int can hold. */
  ghost predicate SmallCut(net: Network, source: Node, sink: Node)
  {
    exists c :: IsCut(net, source, sink, c) && CutCapacity(net, source, sink, c) <= MAX_INT
  }

  /**
   * The total is the value of a maximum flow and the counter is what 64-bit arithmetic leaves of it, which is the value
   * itself exactly when some cut is small.
   */
  ghost predicate ShowsMaxFlow(net: Network, source: Node, sink: Node, flow: Int64, total: nat)
  {
    && IsMaxFlowValue(net, source, sink, total) && flow == Wrap(total)
    && (IsMaxFlowValue(net, source, sink, flow) <==> SmallCut(net, source, sink))
  }

  /**
   * Whatever the capacities, at most |V|·|E| rounds; the value of a maximum flow, where no residual capacity can wrap.
   */
  method MaxFlow(net: Network, source: Node, sink: Node) returns (flow: Int64, ghost total: nat, ghost rounds: nat)
    requires Ints(net)
    ensures rounds <= |Universe(net, source, sink)| * |Edges(net)|
    ensures source == sink ==> flow == 0
    ensures source != sink ==> Outcome(net, source, sink, total) && flow == Wrap(total)
    ensures WellFormed(net) && source != sink ==> ShowsMaxFlow(net, source, sink, flow, total)
  {
    ghost var side;
    var residual;
    residual, flow, total, rounds, side := Saturate(net, source, sink);
    BudgetIsProduct(|Universe(net, source, sink)|, |Edges(net)|);
    CountsIsWrap(flow, total);
    if source != sink {
      NoWalkOut(residual, source, sink, side);
    }
    if WellFormed(net) && source != sink {
      StuckIsOptimal(net, residual, source, sink, total, side);
      SmallCutDecides(net, source, sink, total, side);
    }
  }

  /** The counter shows the value of a maximum flow exactly when that value, a cut's capacity, fits. */
  lemma SmallCutDecides(net: Network, source: Node, sink: Node, total: nat, side: set<Node>)
    requires IsMaxFlowValue(net, source, sink, total)
    requires IsLeastMinCut(net, source, sink, side) && CutCapacity(net, source, sink, side) == total
    ensures ShowsMaxFlow(net, source, sink, Wrap(total), total)
  {
    assert IsMaxFlowValue(net, source, sink, Wrap(total)) ==> Wrap(total) == total;
    if c :| IsCut(net, source, sink, c) && CutCapacity(net, source, sink, c) <= MAX_INT {
      assert total <= CutCapacity(net, source, sink, c);
    }
  }

  /** The nodes the source still reaches over residual edges. */
  method ResidualSide(residual: Network, source: Node) returns (seen: set<Node>)
    ensures IsReach(residual, source, seen)
  {
    var parent, ok;
    ghost var level;
    parent, ok, level := BfsResidual(residual, source, source);
    seen := parent.Keys + {source};
    ReachOfTree(residual, source, parent, level);
  }

  /**
   * The nodes the source still reaches. Where no residual capacity can wrap they are the side of the source that every
   * minimum cut contains, and their capacity is the maximum flow, however large.
   */
  method MinCut(net: Network, source: Node, sink: Node) returns (seen: set<Node>)
    requires Ints(net)
    ensures source in seen && (source != sink ==> sink !in seen)
    ensures WellFormed(net) && source != sink ==>
              && IsLeastMinCut(net, source, sink, seen)
              && IsMaxFlowValue(net, source, sink, CutCapacity(net, source, sink, seen))
  {
    ghost var side, total, rounds;
    var residual, flow;
    residual, flow, total, rounds, side := Saturate(net, source, sink);
    seen := ResidualSide(residual, source);
    assert seen <= side;
    if WellFormed(net) && source != sink {
      StuckIsOptimal(net, residual, source, sink, total, seen);
    }
  }
}

/** Directed graphs as adjacency lists: edges, paths, reachability and cycles. */
module Digraphs {
  import opened Collections

  type Node = string

  /** A node without an entry has no successors; a successor may occur more than once. */
  type Digraph = map<Node, seq<Node>>

  function Successors(g: Digraph, n: Node): seq<Node>
  {
    if n in g then g[n] else []
  }

  predicate Edge(g: Digraph, u: Node, v: Node)
  {
    v in Successors(g, u)
  }

  function Nodes(g: Digraph): set<Node>
  {
    g.Keys + set u, v | u in g && v in g[u] :: v
  }

  lemma EdgeInside(g: Digraph, u: Node, v: Node)
    requires Edge(g, u, v)
    ensures u in Nodes(g) && v in Nodes(g)
  {
  }

  /** Consecutive nodes of `p` are joined by edges. */
  ghost predicate Chain(g: Digraph, p: seq<Node>)
  {
    forall i :: 0 <= i < |p| - 1 ==> Edge(g, p[i], p[i + 1])
  }

  ghost predicate Path(g: Digraph, p: seq<Node>, a: Node, b: Node)
  {
    |p| > 0 && p[0] == a && p[|p| - 1] == b && Chain(g, p)
  }

  ghost predicate Reaches(g: Digraph, a: Node, b: Node)
  {
    exists p :: Path(g, p, a, b)
  }

  ghost predicate Mutual(g: Digraph, a: Node, b: Node)
  {
    Reaches(g, a, b) && Reaches(g, b, a)
  }

  ghost predicate HasCycle(g: Digraph)
  {
    exists p :: |p| > 1 && Chain(g, p) && p[0] == p[|p| - 1]
  }

  lemma ReachesSelf(g: Digraph, a: Node)
    ensures Reaches(g, a, a)
  {
    assert Path(g, [a], a, a);
  }

  lemma PathJoin(g: Digraph, p: seq<Node>, q: seq<Node>, a: Node, b: Node, c: Node)
    requires Path(g, p, a, b) && Path(g, q, b, c)
    ensures Path(g, p + q[1..], a, c)
  {
    var r := p + q[1..];
    forall i | 0 <= i < |r| - 1
      ensures Edge(g, r[i], r[i + 1])
    {
      if i >= |p| - 1 {
        assert r[i] == q[i - (|p| - 1)] && r[i + 1] == q[i - (|p| - 1) + 1];
      }
    }
  }

  lemma ReachesTransitive(g: Digraph, a: Node, b: Node, c: Node)
    requires Reaches(g, a, b) && Reaches(g, b, c)
    ensures Reaches(g, a, c)
  {
    var p :| Path(g, p, a, b);
    var q :| Path(g, q, b, c);
    PathJoin(g, p, q, a, b, c);
  }

  lemma ReachesEdge(g: Digraph, a: Node, b: Node)
    requires Edge(g, a, b)
    ensures Reaches(g, a, b)
  {
    assert Path(g, [a, b], a, b);
  }

  /** A path that starts inside a set and ends outside crosses its border somewhere. */
  lemma {:induction false} PathLeaves(g: Digraph, p: seq<Node>, a: Node, b: Node, s: set<Node>) returns (k: nat)
    requires Path(g, p, a, b) && a in s && b !in s
    ensures k < |p| - 1 && p[k] in s && p[k + 1] !in s && Edge(g, p[k], p[k + 1])
  {
    k := 0;
    while p[k + 1] in s
      invariant k < |p| - 1 && p[k] in s
      decreases |p| - k
    {
      k := k + 1;
    }
  }

  /** Every node of a path lies between its ends. */
  lemma PathMiddle(g: Digraph, p: seq<Node>, a: Node, b: Node, i: nat)
    requires Path(g, p, a, b) && i < |p|
    ensures Reaches(g, a, p[i]) && Reaches(g, p[i], b)
  {
    assert Path(g, p[..i + 1], a, p[i]);
    assert Path(g, p[i..], p[i], b);
  }

  lemma PathInside(g: Digraph, p: seq<Node>, a: Node, b: Node, i: nat)
    requires Path(g, p, a, b) && a in Nodes(g) && i < |p|
    ensures p[i] in Nodes(g)
  {
    if i > 0 {
      assert Edge(g, p[i - 1], p[i - 1 + 1]);
      EdgeInside(g, p[i - 1], p[i]);
    }
  }

  /** The state of a breadth-first search: `done` nodes are handled, the `active` one is not quite. */
  ghost predicate Exploring(g: Digraph, start: Node, seen: set<Node>, queue: seq<Node>, done: set<Node>,
                            active: set<Node>)
  {
    && start in seen && seen <= Nodes(g) + {start}
    && seen == done + active + Members(queue)
    && done !! active && done + active !! Members(queue) && Distinct(queue)
    && (forall x :: x in seen ==> Reaches(g, start, x))
    && (forall x, y :: x in done && Edge(g, x, y) ==> y in seen)
  }

  lemma ExploreNext(g: Digraph, start: Node, seen: set<Node>, queue: seq<Node>, done: set<Node>)
    requires Exploring(g, start, seen, queue, done, {}) && |queue| > 0
    ensures Exploring(g, start, seen, queue[1..], done, {queue[0]})
  {
    assert Members(queue) == {queue[0]} + Members(queue[1..]);
  }

  lemma ExploreFound(g: Digraph, start: Node, seen: set<Node>, queue: seq<Node>, done: set<Node>, u: Node, v: Node)
    requires Exploring(g, start, seen, queue, done, {u}) && Edge(g, u, v)
    ensures Reaches(g, start, v)
    ensures v !in seen ==> Exploring(g, start, seen + {v}, queue + [v], done, {u})
  {
    EdgeInside(g, u, v);
    ReachesEdge(g, u, v);
    ReachesTransitive(g, start, u, v);
    assert Members(queue + [v]) == Members(queue) + {v};
  }

  /** A finished search has seen what the start reaches, no more and no less. */
  lemma Explored(g: Digraph, start: Node, seen: set<Node>, done: set<Node>, v: Node)
    requires Exploring(g, start, seen, [], done, {})
    ensures v in seen <==> Reaches(g, start, v)
  {
    assert seen == done;
    if Reaches(g, start, v) && v !in seen {
      var p :| Path(g, p, start, v);
      var k := PathLeaves(g, p, start, v, seen);
      assert false;
    }
  }

  method Reachable(g: Digraph, start: Node, target: Node) returns (r: bool)
    ensures r <==> Reaches(g, start, target)
  {
    ReachesSelf(g, start);
    if start == target {
      return true;
    }
    var seen := {start};
    var queue := [start];
    ghost var done: set<Node> := {};
    while |queue| > 0
      invariant Exploring(g, start, seen, queue, done, {}) && target !in seen
      decreases Nodes(g) + {start} - done
    {
      ExploreNext(g, start, seen, queue, done);
      var cur := queue[0];
      queue := queue[1..];
      var found;
      found, seen, queue := Expand(g, start, target, cur, seen, queue, done);
      if found {
        return true;
      }
      done := done + {cur};
    }
    Explored(g, start, seen, done, target);
    return false;
  }

  /** The successors of the node at hand: unseen ones are queued, the target ends the search. */
  method Expand(g: Digraph, start: Node, target: Node, cur: Node, seen0: set<Node>, queue0: seq<Node>,
                ghost done: set<Node>)
    returns (found: bool, seen: set<Node>, queue: seq<Node>)
    requires Exploring(g, start, seen0, queue0, done, {cur}) && target !in seen0
    ensures found ==> Reaches(g, start, target)
    ensures !found ==> Exploring(g, start, seen, queue, done + {cur}, {}) && target !in seen
  {
    found, seen, queue := false, seen0, queue0;
    var outs := Successors(g, cur);
    for i := 0 to |outs|
      invariant Exploring(g, start, seen, queue, done, {cur}) && target !in seen
      invariant forall k :: 0 <= k < i ==> outs[k] in seen
    {
      var next := outs[i];
      ExploreFound(g, start, seen, queue, done, cur, next);
      if next == target {
        found := true;
        return;
      }
      if next !in seen {
        seen := seen + {next};
        queue := queue + [next];
      }
    }
  }
}

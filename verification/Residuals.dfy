/** Residual networks: what one augmentation does to flow, conservation and shortest walks. */
module Residuals {
  import opened Collections
  import opened Sums
  import opened FlowNetworks

  /** `res` is what some net flow leaves of `net`. */
  ghost predicate IsResidual(net: Network, res: Network)
  {
    forall u, v ::
      0 <= Cap(res, u, v) && Cap(res, u, v) + Cap(res, v, u) == Cap(net, u, v) + Cap(net, v, u)
  }

  /** The net flow that turned `net` into `res`. */
  ghost function Pushed(net: Network, res: Network): (Node, Node) -> int
  {
    (u, v) => Cap(net, u, v) - Cap(res, u, v)
  }

  /** Capacity is left only where the network has an entry, in one direction or the other. */
  ghost predicate Inside(net: Network, res: Network)
  {
    forall u, v :: Cap(res, u, v) > 0 ==> Linked(net, u, v)
  }

  ghost predicate Linked(net: Network, u: Node, v: Node)
  {
    (u, v) in Edges(net) || (v, u) in Edges(net)
  }

  lemma InsideNodes(net: Network, res: Network, u: Node, v: Node)
    requires Inside(net, res) && Cap(res, u, v) > 0
    ensures u in Nodes(net) && v in Nodes(net)
  {
    assert Linked(net, u, v);
  }

  // ----- one augmentation

  /**
   * Moves `b` units from `u` to `v`, creating the reverse row when it is missing. The addition wraps; the subtraction
   * is from an edge that carries `b`.
   */
  function Push(res: Network, u: Node, v: Node, b: int): Network
  {
    var forward := (if u in res then res[u] else map[])[v := Cap(res, u, v) - b];
    var res1 := res[u := forward];
    var back := (if v in res1 then res1[v] else map[])[u := Wrap(Cap(res1, v, u) + b)];
    res1[v := back]
  }

  lemma PushCap(res: Network, u: Node, v: Node, b: int, x: Node, y: Node)
    requires u != v
    ensures Cap(Push(res, u, v, b), x, y) ==
            if x == u && y == v then Cap(res, x, y) - b
            else if x == v && y == u then Wrap(Cap(res, x, y) + b)
            else Cap(res, x, y)
  {
  }

  /** `x` is followed by `y` on `p`, at position `i` or later. */
  ghost predicate Follows(p: seq<Node>, i: nat, x: Node, y: Node)
  {
    exists k :: i <= k < |p| - 1 && p[k] == x && p[k + 1] == y
  }

  /** `res` after `b` units are pushed along the edges of `p` from position `i` on. */
  function Augmented(res: Network, p: seq<Node>, i: nat, b: int): Network
    decreases |p| - i
  {
    if i + 1 >= |p| then res
    else Push(Augmented(res, p, i + 1, b), p[i], p[i + 1], b)
  }

  lemma {:induction false} AugmentedCap(res: Network, p: seq<Node>, i: nat, b: int, x: Node, y: Node)
    requires Distinct(p)
    ensures Cap(Augmented(res, p, i, b), x, y) ==
            if Follows(p, i, x, y) then Cap(res, x, y) - b
            else if Follows(p, i, y, x) then Wrap(Cap(res, x, y) + b)
            else Cap(res, x, y)
    decreases |p| - i
  {
    if i + 1 < |p| {
      NotBothWays(p, i, x, y);
      AugmentedCap(res, p, i + 1, b, x, y);
      PushCap(Augmented(res, p, i + 1, b), p[i], p[i + 1], b, x, y);
      FollowsStep(p, i, x, y);
      FollowsStep(p, i, y, x);
    }
  }

  lemma FollowsStep(p: seq<Node>, i: nat, x: Node, y: Node)
    requires Distinct(p) && i + 1 < |p|
    ensures Follows(p, i, x, y) <==> Follows(p, i + 1, x, y) || (p[i] == x && p[i + 1] == y)
    ensures !(Follows(p, i + 1, x, y) && p[i] == x && p[i + 1] == y)
  {
  }

  lemma NotBothWays(p: seq<Node>, i: nat, x: Node, y: Node)
    requires Distinct(p)
    ensures !(Follows(p, i, x, y) && Follows(p, i, y, x))
  {
  }

  /** A path of `res` whose every edge carries at least `b`. */
  ghost predicate Carries(res: Network, p: seq<Node>, b: int)
  {
    forall k :: 0 <= k < |p| - 1 ==> b <= Cap(res, p[k], p[k + 1])
  }

  /** Nothing wraps on the way back. */
  ghost predicate Fits(res: Network, p: seq<Node>, b: int)
  {
    forall k :: 0 <= k < |p| - 1 ==> 0 <= Cap(res, p[k + 1], p[k]) + b <= MAX_INT
  }

  lemma WellFormedFits(net: Network, res: Network, p: seq<Node>, b: int)
    requires WellFormed(net) && IsResidual(net, res) && Distinct(p) && Carries(res, p, b) && b >= 0
    ensures Fits(res, p, b)
  {
    forall k | 0 <= k < |p| - 1
      ensures 0 <= Cap(res, p[k + 1], p[k]) + b <= MAX_INT
    {
      assert b <= Cap(res, p[k], p[k + 1]) && p[k] != p[k + 1];
      assert 0 <= Cap(res, p[k + 1], p[k]);
    }
  }

  lemma AugmentedFits(res: Network, p: seq<Node>, b: int, x: Node, y: Node)
    requires Distinct(p) && Fits(res, p, b)
    ensures Cap(Augmented(res, p, 0, b), x, y) ==
            Cap(res, x, y) - (if Follows(p, 0, x, y) then b else 0) + (if Follows(p, 0, y, x) then b else 0)
  {
    AugmentedCap(res, p, 0, b, x, y);
    NotBothWays(p, 0, x, y);
  }

  lemma AugmentedIsResidual(net: Network, res: Network, p: seq<Node>, b: int)
    requires WellFormed(net) && IsResidual(net, res) && Distinct(p) && Carries(res, p, b) && b >= 0
    ensures IsResidual(net, Augmented(res, p, 0, b))
  {
    var after := Augmented(res, p, 0, b);
    WellFormedFits(net, res, p, b);
    forall u, v
      ensures 0 <= Cap(after, u, v) && Cap(after, u, v) + Cap(after, v, u) == Cap(net, u, v) + Cap(net, v, u)
    {
      AugmentedFits(res, p, b, u, v);
      AugmentedFits(res, p, b, v, u);
      assert 0 <= Cap(res, u, v);
    }
  }

  /** Row totals change only at the two ends of the path. */
  lemma {:induction false} AugmentedRow(net: Network, res: Network, p: seq<Node>, i: nat, b: int, nodes: set<Node>,
                                        x: Node)
    requires Distinct(p) && Fits(res, p, b) && i < |p|
    requires forall k :: 0 <= k < |p| ==> p[k] in nodes
    ensures Sum(Row(Pushed(net, Augmented(res, p, i, b)), x), nodes) ==
            Sum(Row(Pushed(net, res), x), nodes)
            + (if x == p[i] then b else 0) - (if x == p[|p| - 1] then b else 0)
    decreases |p| - i
  {
    if i + 1 < |p| {
      AugmentedRow(net, res, p, i + 1, b, nodes, x);
      AugmentedCap(res, p, i + 1, b, p[i + 1], p[i]);
      assert 0 <= Cap(res, p[i + 1], p[i]) + b <= MAX_INT;
      PushRow(net, Augmented(res, p, i + 1, b), p[i], p[i + 1], b, nodes, x);
    }
  }

  lemma PushRow(net: Network, res: Network, u: Node, v: Node, b: int, nodes: set<Node>, x: Node)
    requires u != v && u in nodes && v in nodes && 0 <= Cap(res, v, u) + b <= MAX_INT
    ensures Sum(Row(Pushed(net, Push(res, u, v, b)), x), nodes) ==
            Sum(Row(Pushed(net, res), x), nodes) + (if x == u then b else 0) - (if x == v then b else 0)
  {
    var before, after := Row(Pushed(net, res), x), Row(Pushed(net, Push(res, u, v, b)), x);
    forall y
      ensures after(y) == before(y) + (if x == u && y == v then b else 0) - (if x == v && y == u then b else 0)
    {
      PushCap(res, u, v, b, x, y);
    }
    if x == u {
      SumUpdate(before, after, nodes, v);
    } else if x == v {
      SumUpdate(before, after, nodes, u);
    } else {
      SumSame(before, after, nodes);
    }
  }

  /** An augmentation keeps a flow a flow and adds `b` to its value. */
  lemma AugmentedNetFlow(net: Network, source: Node, sink: Node, res: Network, value: int, p: seq<Node>, b: int)
    requires WellFormed(net) && IsResidual(net, res) && NetFlow(net, source, sink, Pushed(net, res), value)
    requires Distinct(p) && Carries(res, p, b) && b >= 0
    requires |p| >= 2 && p[0] == source && p[|p| - 1] == sink
    requires forall k :: 0 <= k < |p| ==> p[k] in Universe(net, source, sink)
    ensures NetFlow(net, source, sink, Pushed(net, Augmented(res, p, 0, b)), value + b)
  {
    var nodes := Universe(net, source, sink);
    AugmentedIsResidual(net, res, p, b);
    WellFormedFits(net, res, p, b);
    forall u | u in nodes && u != sink
      ensures Sum(Row(Pushed(net, Augmented(res, p, 0, b)), u), nodes) ==
              Sum(Row(Pushed(net, res), u), nodes) + (if u == source then b else 0)
    {
      AugmentedRow(net, res, p, 0, b, nodes, u);
    }
    assert source in nodes && source != sink;
  }

  /** Whether or not anything wraps, capacity appears only against the edges of the path. */
  lemma AugmentedInside(net: Network, res: Network, p: seq<Node>, b: int)
    requires Inside(net, res) && Ints(res) && Distinct(p) && Carries(res, p, b) && b > 0
    ensures Inside(net, Augmented(res, p, 0, b)) && Ints(Augmented(res, p, 0, b))
  {
    var after := Augmented(res, p, 0, b);
    forall u, v
      ensures -MAX_INT - 1 <= Cap(after, u, v) <= MAX_INT
      ensures Cap(after, u, v) > 0 ==> Linked(net, u, v)
    {
      AugmentedCap(res, p, 0, b, u, v);
      assert -MAX_INT - 1 <= Cap(res, u, v) <= MAX_INT;
      if Follows(p, 0, u, v) || Follows(p, 0, v, u) {
        assert Cap(res, u, v) > 0 || Cap(res, v, u) > 0;
      }
    }
  }

  // ----- shortest walks

  ghost predicate Walk(res: Network, p: seq<Node>, from: Node, to: Node)
  {
    && |p| > 0 && p[0] == from && p[|p| - 1] == to
    && forall i :: 0 <= i < |p| - 1 ==> Cap(res, p[i], p[i + 1]) > 0
  }

  /** The label of a node: its level, or `top` when it has none. */
  ghost function Label(level: map<Node, nat>, top: nat, v: Node): nat
  {
    if v in level then level[v] else top
  }

  /** No residual edge climbs more than one level. */
  ghost predicate Labelling(res: Network, level: map<Node, nat>, top: nat)
  {
    forall u, v :: Cap(res, u, v) > 0 ==> Label(level, top, v) <= Label(level, top, u) + 1
  }

  lemma {:induction false} WalkClimbs(res: Network, p: seq<Node>, level: map<Node, nat>, top: nat, i: nat, j: nat)
    requires i <= j < |p|
    requires forall k :: 0 <= k < |p| - 1 ==> Cap(res, p[k], p[k + 1]) > 0
    requires Labelling(res, level, top)
    ensures Label(level, top, p[j]) <= Label(level, top, p[i]) + j - i
    decreases j - i
  {
    if i < j {
      WalkClimbs(res, p, level, top, i, j - 1);
      assert Cap(res, p[j - 1], p[j - 1 + 1]) > 0;
    }
  }

  /** `u -> v` lies on a walk of exactly `length` edges from `source` to `sink`. */
  ghost predicate OnWalk(res: Network, source: Node, sink: Node, length: nat, u: Node, v: Node)
  {
    exists p :: Walk(res, p, source, sink) && |p| == length + 1 && Follows(p, 0, u, v)
  }

  /** The edges on walks of exactly `length` edges: all shortest ones, when `length` is the distance. */
  ghost function TightEdges(net: Network, res: Network, source: Node, sink: Node, length: nat): set<(Node, Node)>
  {
    set e | e in Pairs(Nodes(net)) && OnWalk(res, source, sink, length, e.0, e.1)
  }

  /** On a walk as long as the labels allow, every edge climbs exactly one level. */
  lemma TightWalkLabels(res: Network, p: seq<Node>, level: map<Node, nat>, top: nat, source: Node, sink: Node, k: nat)
    requires Walk(res, p, source, sink) && Labelling(res, level, top) && |p| == top + 1
    requires Label(level, top, source) == 0 && Label(level, top, sink) == top
    requires k < |p|
    ensures Label(level, top, p[k]) == k
  {
    WalkClimbs(res, p, level, top, 0, k);
    WalkClimbs(res, p, level, top, k, |p| - 1);
  }

  lemma TightEdgeLabels(net: Network, res: Network, level: map<Node, nat>, top: nat, source: Node, sink: Node,
                        u: Node, v: Node)
    requires Labelling(res, level, top)
    requires Label(level, top, source) == 0 && Label(level, top, sink) == top
    requires OnWalk(res, source, sink, top, u, v)
    ensures Label(level, top, v) == Label(level, top, u) + 1
    ensures Cap(res, u, v) > 0
  {
    var p :| Walk(res, p, source, sink) && |p| == top + 1 && Follows(p, 0, u, v);
    var k :| 0 <= k < |p| - 1 && p[k] == u && p[k + 1] == v;
    TightWalkLabels(res, p, level, top, source, sink, k);
    TightWalkLabels(res, p, level, top, source, sink, k + 1);
  }

  /** A network entry for a residual edge, in whichever direction there is one. */
  ghost function Oriented(net: Network, e: (Node, Node)): (Node, Node)
  {
    if e in Edges(net) then e else (e.1, e.0)
  }

  /** Of two antiparallel residual edges at most one is tight, so the entries of the network bound them. */
  lemma TightEdgesBound(net: Network, res: Network, level: map<Node, nat>, top: nat, source: Node, sink: Node)
    requires Inside(net, res)
    requires Labelling(res, level, top)
    requires Label(level, top, source) == 0 && Label(level, top, sink) == top
    ensures |TightEdges(net, res, source, sink, top)| <= |Edges(net)|
  {
    var tight := TightEdges(net, res, source, sink, top);
    forall e | e in tight
      ensures Label(level, top, e.1) == Label(level, top, e.0) + 1 && Oriented(net, e) in Edges(net)
    {
      TightEdgeLabels(net, res, level, top, source, sink, e.0, e.1);
    }
    InjectionCard(tight, Edges(net), e => Oriented(net, e));
  }

  /** After a shortest augmentation the labels still bound every residual edge. */
  lemma LabelsSurvive(res: Network, p: seq<Node>, b: int, level: map<Node, nat>, top: nat, source: Node, sink: Node)
    requires Walk(res, p, source, sink) && Distinct(p) && |p| == top + 1 && b >= 0
    requires Labelling(res, level, top)
    requires Label(level, top, source) == 0 && Label(level, top, sink) == top
    ensures Labelling(Augmented(res, p, 0, b), level, top)
    ensures forall u, v :: Cap(Augmented(res, p, 0, b), u, v) > 0 && Cap(res, u, v) <= 0 ==>
              Label(level, top, u) == Label(level, top, v) + 1
  {
    var after := Augmented(res, p, 0, b);
    forall u, v | Cap(after, u, v) > 0 && Cap(res, u, v) <= 0
      ensures Label(level, top, u) == Label(level, top, v) + 1
    {
      AugmentedCap(res, p, 0, b, u, v);
      var k :| 0 <= k < |p| - 1 && p[k] == v && p[k + 1] == u;
      TightWalkLabels(res, p, level, top, source, sink, k);
      TightWalkLabels(res, p, level, top, source, sink, k + 1);
    }
  }

  /** A walk of the least length in the new residual network was already one in the old. */
  lemma TightWalksSurvive(res: Network, after: Network, level: map<Node, nat>, top: nat, source: Node, sink: Node,
                          p: seq<Node>)
    requires Labelling(after, level, top)
    requires Label(level, top, source) == 0 && Label(level, top, sink) == top
    requires forall u, v :: Cap(after, u, v) > 0 && Cap(res, u, v) <= 0 ==>
               Label(level, top, u) == Label(level, top, v) + 1
    requires Walk(after, p, source, sink) && |p| == top + 1
    ensures Walk(res, p, source, sink)
  {
    forall i | 0 <= i < |p| - 1
      ensures Cap(res, p[i], p[i + 1]) > 0
    {
      TightWalkLabels(after, p, level, top, source, sink, i);
      TightWalkLabels(after, p, level, top, source, sink, i + 1);
      assert Cap(after, p[i], p[i + 1]) > 0;
    }
  }

  /** Each augmentation that does not lengthen the shortest walk uses up a tight edge for good. */
  lemma TightEdgesShrink(net: Network, res: Network, p: seq<Node>, b: int, level: map<Node, nat>, top: nat,
                         source: Node, sink: Node, critical: nat)
    requires Inside(net, res)
    requires Walk(res, p, source, sink) && Distinct(p) && |p| == top + 1
    requires Labelling(res, level, top)
    requires Label(level, top, source) == 0 && Label(level, top, sink) == top
    requires critical < |p| - 1 && Cap(res, p[critical], p[critical + 1]) == b
    ensures |TightEdges(net, Augmented(res, p, 0, b), source, sink, top)| < |TightEdges(net, res, source, sink, top)|
  {
    var after := Augmented(res, p, 0, b);
    var before, now := TightEdges(net, res, source, sink, top), TightEdges(net, after, source, sink, top);
    LabelsSurvive(res, p, b, level, top, source, sink);
    forall e | e in now
      ensures e in before
    {
      var q :| Walk(after, q, source, sink) && |q| == top + 1 && Follows(q, 0, e.0, e.1);
      TightWalksSurvive(res, after, level, top, source, sink, q);
    }
    var u, v := p[critical], p[critical + 1];
    assert Follows(p, 0, u, v) && !Follows(p, 0, v, u);
    InsideNodes(net, res, u, v);
    assert (u, v) in before;
    AugmentedCap(res, p, 0, b, u, v);
    if (u, v) in now {
      TightEdgeLabels(net, after, level, top, source, sink, u, v);
      assert false;
    }
    SubsetCard(now, before, (u, v));
  }
}

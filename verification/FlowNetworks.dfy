/** Flow networks, feasible flows, cuts and residual networks: the vocabulary of max-flow and min-cut. */
module FlowNetworks {
  import opened Sums

  type Node = string

  /** Capacities by tail and head, as the nested Go map holds them. */
  type Network = map<Node, map<Node, int>>

  /** A flow assigns an amount to pairs of nodes; a missing pair carries nothing. */
  type Flow = map<(Node, Node), int>

  const MAX_INT: int := 0x7fff_ffff_ffff_ffff
  const INT_RANGE: int := 0x1_0000_0000_0000_0000

  /** A Go int on a 64-bit machine. */
  type Int64 = x: int | -MAX_INT - 1 <= x <= MAX_INT

  /** What 64-bit arithmetic leaves of a mathematical result: the number in range that differs by a multiple of 2^64. */
  function Wrap(x: int): (r: Int64)
    ensures -MAX_INT - 1 <= x <= MAX_INT <==> r == x
    decreases if x > MAX_INT then x - MAX_INT else -MAX_INT - 1 - x
  {
    if x > MAX_INT then Wrap(x - INT_RANGE)
    else if x < -MAX_INT - 1 then Wrap(x + INT_RANGE)
    else x
  }

  lemma WrapPeriod(x: int)
    ensures Wrap(x - INT_RANGE) == Wrap(x)
  {
  }

  /** Wrapping early or late makes no difference. */
  lemma {:induction false} WrapAdd(x: int, b: int)
    ensures Wrap(Wrap(x) + b) == Wrap(x + b)
    decreases if x > MAX_INT then x - MAX_INT else -MAX_INT - 1 - x
  {
    if x > MAX_INT {
      WrapAdd(x - INT_RANGE, b);
      WrapPeriod(x + b);
    } else if x < -MAX_INT - 1 {
      WrapAdd(x + INT_RANGE, b);
      WrapPeriod(x + INT_RANGE + b);
    }
  }

  /** A nested map read: a missing key reads as zero. */
  function Cap(net: Network, u: Node, v: Node): int
  {
    if u in net && v in net[u] then net[u][v] else 0
  }

  ghost function Capacity(net: Network): (Node, Node) -> int
  {
    (u, v) => Cap(net, u, v)
  }

  ghost function Nodes(net: Network): set<Node>
  {
    net.Keys + set u, v | u in net && v in net[u] :: v
  }

  /** The nodes a question about `source` and `sink` ranges over. */
  ghost function Universe(net: Network, source: Node, sink: Node): set<Node>
  {
    Nodes(net) + {source, sink}
  }

  /** The entries of the network. */
  ghost function Edges(net: Network): set<(Node, Node)>
  {
    set u, v | u in net && v in net[u] :: (u, v)
  }

  /** Every capacity is a 64-bit int: what the type of the network says. */
  ghost predicate Ints(net: Network)
  {
    forall u, v :: -MAX_INT - 1 <= Cap(net, u, v) <= MAX_INT
  }

  /** No negative capacity, and no two nodes whose capacities to each other add up to more than a 64-bit int. */
  ghost predicate WellFormed(net: Network)
  {
    forall u, v :: 0 <= Cap(net, u, v) && (u != v ==> Cap(net, u, v) + Cap(net, v, u) <= MAX_INT)
  }

  ghost function At(f: Flow, u: Node, v: Node): int
  {
    if (u, v) in f then f[(u, v)] else 0
  }

  ghost function Amount(f: Flow): (Node, Node) -> int
  {
    (u, v) => At(f, u, v)
  }

  ghost function Received(f: Flow): (Node, Node) -> int
  {
    (u, v) => At(f, v, u)
  }

  /** What goes from one node to the other, less what comes back. */
  ghost function NetAmount(f: Flow): (Node, Node) -> int
  {
    (u, v) => At(f, u, v) - At(f, v, u)
  }

  ghost function Outflow(f: Flow, u: Node, nodes: set<Node>): int
  {
    Sum(Row(Amount(f), u), nodes)
  }

  ghost function Inflow(f: Flow, u: Node, nodes: set<Node>): int
  {
    Sum(Row(Received(f), u), nodes)
  }

  /** Capacities are respected and every node but source and sink passes on what it gets. */
  ghost predicate Feasible(net: Network, source: Node, sink: Node, f: Flow)
  {
    var nodes := Universe(net, source, sink);
    && (forall u, v :: 0 <= At(f, u, v) <= Cap(net, u, v))
    && (forall u :: u in nodes && u != source && u != sink ==> Outflow(f, u, nodes) == Inflow(f, u, nodes))
  }

  ghost function Value(net: Network, source: Node, sink: Node, f: Flow): int
  {
    var nodes := Universe(net, source, sink);
    Outflow(f, source, nodes) - Inflow(f, source, nodes)
  }

  ghost predicate IsMaxFlowValue(net: Network, source: Node, sink: Node, value: int)
  {
    && (exists f :: Feasible(net, source, sink, f) && Value(net, source, sink, f) == value)
    && (forall f :: Feasible(net, source, sink, f) ==> Value(net, source, sink, f) <= value)
  }

  ghost predicate IsCut(net: Network, source: Node, sink: Node, s: set<Node>)
  {
    source in s && sink !in s && s <= Universe(net, source, sink)
  }

  /** The capacity that leaves `s`. */
  ghost function CutCapacity(net: Network, source: Node, sink: Node, s: set<Node>): int
  {
    Cross(Capacity(net), s, Universe(net, source, sink) - s)
  }

  /** The minimum cut that every other minimum cut contains. */
  ghost predicate IsLeastMinCut(net: Network, source: Node, sink: Node, s: set<Node>)
  {
    && IsCut(net, source, sink, s)
    && (forall c :: IsCut(net, source, sink, c) ==>
          CutCapacity(net, source, sink, s) <= CutCapacity(net, source, sink, c))
    && (forall c ::
          (IsCut(net, source, sink, c) &&
           CutCapacity(net, source, sink, c) == CutCapacity(net, source, sink, s)) ==> s <= c)
  }

  /** There is only one, so no iteration order can produce another. */
  lemma LeastMinCutUnique(net: Network, source: Node, sink: Node, s: set<Node>, t: set<Node>)
    requires IsLeastMinCut(net, source, sink, s)
    requires IsLeastMinCut(net, source, sink, t)
    ensures s == t
  {
    assert s <= t && t <= s;
  }

  /** A skew-symmetric assignment within the capacities that creates nothing on the way. */
  ghost predicate NetFlow(net: Network, source: Node, sink: Node, g: (Node, Node) -> int, value: int)
  {
    var nodes := Universe(net, source, sink);
    && (forall u, v :: g(u, v) == -g(v, u))
    && (forall u, v :: g(u, v) <= Cap(net, u, v))
    && (forall u :: u in nodes && u != source && u != sink ==> Sum(Row(g, u), nodes) == 0)
    && Sum(Row(g, source), nodes) == value
  }

  /** Only the source contributes to what a side of a cut sends out in total. */
  lemma {:induction false} SideSum(net: Network, source: Node, sink: Node, g: (Node, Node) -> int, value: int,
                                   s: set<Node>)
    requires NetFlow(net, source, sink, g, value)
    requires s <= Universe(net, source, sink) && sink !in s
    ensures Cross(g, s, Universe(net, source, sink)) == if source in s then value else 0
    decreases s
  {
    var nodes := Universe(net, source, sink);
    if s == {} {
    } else {
      var x :| x in s;
      CrossRemove(g, s, nodes, x);
      SideSum(net, source, sink, g, value, s - {x});
    }
  }

  /** The value of a flow is what crosses any cut. */
  lemma CrossingIsValue(net: Network, source: Node, sink: Node, g: (Node, Node) -> int, value: int, s: set<Node>)
    requires NetFlow(net, source, sink, g, value)
    requires IsCut(net, source, sink, s)
    ensures Cross(g, s, Universe(net, source, sink) - s) == value
  {
    var nodes := Universe(net, source, sink);
    SideSum(net, source, sink, g, value, s);
    CrossSplitRight(g, s, s, nodes - s);
    assert s + (nodes - s) == nodes;
    CrossSkew(g, s);
  }

  /** Weak duality: no flow exceeds a cut, and one that equals it saturates every edge leaving it. */
  lemma NetFlowBelowCut(net: Network, source: Node, sink: Node, g: (Node, Node) -> int, value: int, s: set<Node>)
    requires NetFlow(net, source, sink, g, value)
    requires IsCut(net, source, sink, s)
    ensures value <= CutCapacity(net, source, sink, s)
    ensures value == CutCapacity(net, source, sink, s) <==>
            (forall u, v :: u in s && v in Universe(net, source, sink) && v !in s ==> g(u, v) == Cap(net, u, v))
  {
    var rest := Universe(net, source, sink) - s;
    CrossingIsValue(net, source, sink, g, value, s);
    CrossLe(g, Capacity(net), s, rest);
    if value == CutCapacity(net, source, sink, s) {
      forall u, v | u in s && v in Universe(net, source, sink) && v !in s
        ensures g(u, v) == Cap(net, u, v)
      {
        CrossLeEqual(g, Capacity(net), s, rest, u, v);
      }
    }
    if forall u, v :: u in s && v in Universe(net, source, sink) && v !in s ==> g(u, v) == Cap(net, u, v) {
      CrossLe(Capacity(net), g, s, rest);
    }
  }

  /** The net flow of a feasible flow. */
  lemma FeasibleIsNetFlow(net: Network, source: Node, sink: Node, f: Flow)
    requires Feasible(net, source, sink, f)
    ensures NetFlow(net, source, sink, NetAmount(f), Value(net, source, sink, f))
  {
    var nodes := Universe(net, source, sink);
    var g := NetAmount(f);
    forall u
      ensures Sum(Row(g, u), nodes) == Outflow(f, u, nodes) - Inflow(f, u, nodes)
    {
      SumAdd(Row(g, u), Row(Received(f), u), Row(Amount(f), u), nodes);
    }
  }

  ghost function Pairs(nodes: set<Node>): set<(Node, Node)>
  {
    set u, v | u in nodes && v in nodes :: (u, v)
  }

  /** The feasible flow a net flow stands for: its positive part. */
  ghost function PositivePart(g: (Node, Node) -> int, nodes: set<Node>): Flow
  {
    map p | p in Pairs(nodes) && g(p.0, p.1) > 0 :: g(p.0, p.1)
  }

  lemma PositivePartAt(g: (Node, Node) -> int, nodes: set<Node>, u: Node, v: Node)
    ensures At(PositivePart(g, nodes), u, v) ==
            if u in nodes && v in nodes && g(u, v) > 0 then g(u, v) else 0
  {
    assert (u, v) in Pairs(nodes) <==> u in nodes && v in nodes;
  }

  lemma PositivePartFeasible(net: Network, source: Node, sink: Node, g: (Node, Node) -> int, value: int)
    requires NetFlow(net, source, sink, g, value)
    requires WellFormed(net)
    ensures Feasible(net, source, sink, PositivePart(g, Universe(net, source, sink)))
    ensures Value(net, source, sink, PositivePart(g, Universe(net, source, sink))) == value
  {
    var nodes := Universe(net, source, sink);
    var f := PositivePart(g, nodes);
    PositivePartWithin(net, g, nodes);
    forall u | u in nodes
      ensures Outflow(f, u, nodes) - Inflow(f, u, nodes) == Sum(Row(g, u), nodes)
    {
      PositivePartRow(g, nodes, u);
    }
    assert source in nodes;
  }

  lemma PositivePartWithin(net: Network, g: (Node, Node) -> int, nodes: set<Node>)
    requires WellFormed(net) && forall u, v :: g(u, v) <= Cap(net, u, v)
    ensures forall u, v :: 0 <= At(PositivePart(g, nodes), u, v) <= Cap(net, u, v)
  {
    forall u, v
      ensures 0 <= At(PositivePart(g, nodes), u, v) <= Cap(net, u, v)
    {
      PositivePartAt(g, nodes, u, v);
    }
  }

  lemma PositivePartRow(g: (Node, Node) -> int, nodes: set<Node>, u: Node)
    requires forall x, y :: g(x, y) == -g(y, x)
    requires u in nodes
    ensures var f := PositivePart(g, nodes);
            Outflow(f, u, nodes) - Inflow(f, u, nodes) == Sum(Row(g, u), nodes)
  {
    var f := PositivePart(g, nodes);
    forall v | v in nodes
      ensures Row(Amount(f), u)(v) == Row(g, u)(v) + Row(Received(f), u)(v)
    {
      PositivePartAt(g, nodes, u, v);
      PositivePartAt(g, nodes, v, u);
    }
    SumAdd(Row(g, u), Row(Received(f), u), Row(Amount(f), u), nodes);
  }

  /** A flow that meets a cut is maximum, and the cut is minimum. */
  lemma MeetingIsOptimal(net: Network, source: Node, sink: Node, g: (Node, Node) -> int, value: int, s: set<Node>)
    requires WellFormed(net)
    requires NetFlow(net, source, sink, g, value)
    requires IsCut(net, source, sink, s) && CutCapacity(net, source, sink, s) == value
    ensures IsMaxFlowValue(net, source, sink, value)
    ensures forall c :: IsCut(net, source, sink, c) ==> value <= CutCapacity(net, source, sink, c)
  {
    PositivePartFeasible(net, source, sink, g, value);
    forall f | Feasible(net, source, sink, f)
      ensures Value(net, source, sink, f) <= value
    {
      FeasibleIsNetFlow(net, source, sink, f);
      NetFlowBelowCut(net, source, sink, NetAmount(f), Value(net, source, sink, f), s);
    }
    forall c | IsCut(net, source, sink, c)
      ensures value <= CutCapacity(net, source, sink, c)
    {
      NetFlowBelowCut(net, source, sink, g, value, c);
    }
  }
}

/** Where 64-bit arithmetic costs the flow algorithms their answer: the two ways to leave the range, by input. */
module FlowLimits {
  import opened Collections
  import opened Sums
  import opened FlowNetworks
  import opened Residuals
  import opened EdmondsKarp

  lemma SumOfTwo(f: Node -> int, nodes: set<Node>, x: Node, y: Node)
    requires x != y && x in nodes && y in nodes
    requires forall z :: z in nodes && z != x && z != y ==> f(z) == 0
    ensures Sum(f, nodes) == f(x) + f(y)
  {
    var rest := nodes - {x} - {y};
    SumRemove(f, nodes, x);
    SumRemove(f, nodes - {x}, y);
    SumSame(f, z => 0, rest);
    SumZero(z => 0, rest);
  }

  // ----- a total that does not fit

  predicate Different(s: Node, a: Node, b: Node, t: Node)
  {
    s != a && s != b && s != t && a != b && a != t && b != t
  }

  /** Two disjoint ways from `s` to `t`, each as wide as an int can be. */
  function Wide(s: Node, a: Node, b: Node, t: Node): Network
  {
    map[s := map[a := MAX_INT, b := MAX_INT], a := map[t := MAX_INT], b := map[t := MAX_INT]]
  }

  predicate WideEdge(s: Node, a: Node, b: Node, t: Node, u: Node, v: Node)
  {
    (u == s && (v == a || v == b)) || ((u == a || u == b) && v == t)
  }

  ghost predicate IsWide(net: Network, s: Node, a: Node, b: Node, t: Node)
  {
    && Universe(net, s, t) == {s, a, b, t}
    && forall u, v :: Cap(net, u, v) == if WideEdge(s, a, b, t, u, v) then MAX_INT else 0
  }

  lemma WideIsWide(s: Node, a: Node, b: Node, t: Node)
    requires Different(s, a, b, t)
    ensures IsWide(Wide(s, a, b, t), s, a, b, t)
  {
    var net := Wide(s, a, b, t);
    assert net[s][a] == MAX_INT && net[s][b] == MAX_INT && net[a][t] == MAX_INT && net[b][t] == MAX_INT;
    assert Nodes(net) == {s, a, b, t};
  }

  /** Everything the network has, pushed through it. */
  ghost function Full(net: Network): (Node, Node) -> int
  {
    (u, v) => Cap(net, u, v) - Cap(net, v, u)
  }

  /** At `s` everything leaves; at `a` and `b` as much leaves as comes. */
  lemma WideRow(net: Network, s: Node, a: Node, b: Node, t: Node, u: Node)
    requires Different(s, a, b, t) && IsWide(net, s, a, b, t) && (u == s || u == a || u == b)
    ensures Sum(Row(Full(net), u), {s, a, b, t}) == if u == s then 2 * MAX_INT else 0
  {
    var row := Row(Full(net), u);
    forall v
      ensures row(v) == (if WideEdge(s, a, b, t, u, v) then MAX_INT else 0)
                        - (if WideEdge(s, a, b, t, v, u) then MAX_INT else 0)
    {
    }
    if u == s {
      SumOfTwo(row, {s, a, b, t}, a, b);
    } else {
      SumOfTwo(row, {s, a, b, t}, s, t);
    }
  }

  lemma FullIsBounded(net: Network)
    requires WellFormed(net)
    ensures forall u, v :: Full(net)(u, v) == -Full(net)(v, u)
    ensures forall u, v :: Full(net)(u, v) <= Cap(net, u, v)
  {
    forall u, v
      ensures Full(net)(u, v) <= Cap(net, u, v)
    {
      assert Cap(net, v, u) >= 0;
    }
  }

  lemma WideFlow(net: Network, s: Node, a: Node, b: Node, t: Node)
    requires Different(s, a, b, t) && IsWide(net, s, a, b, t)
    ensures NetFlow(net, s, t, Full(net), 2 * MAX_INT)
  {
    WideIsWellFormed(net, s, a, b, t);
    FullIsBounded(net);
    WideRow(net, s, a, b, t, s);
    WideRow(net, s, a, b, t, a);
    WideRow(net, s, a, b, t, b);
  }

  lemma WideCut(net: Network, s: Node, a: Node, b: Node, t: Node)
    requires Different(s, a, b, t) && IsWide(net, s, a, b, t)
    ensures IsCut(net, s, t, {s}) && CutCapacity(net, s, t, {s}) == 2 * MAX_INT
  {
    var cap, rest := Capacity(net), Universe(net, s, t) - {s};
    SumOfTwo(Row(cap, s), rest, a, b);
    SumRemove(RowSums(cap, rest), {s}, s);
    assert {s} - {s} == {};
  }

  /**
   * Every capacity is an int and none can wrap in the residual network, yet no cut is small: the maximum flow is twice
   * the largest int, and the counter shows -2.
   */
  lemma WideNetworkWraps(s: Node, a: Node, b: Node, t: Node)
    requires Different(s, a, b, t)
    ensures Ints(Wide(s, a, b, t)) && WellFormed(Wide(s, a, b, t)) && !SmallCut(Wide(s, a, b, t), s, t)
    ensures ShowsMaxFlow(Wide(s, a, b, t), s, t, -2, 2 * MAX_INT)
  {
    var net, total := Wide(s, a, b, t), 2 * MAX_INT;
    WideIsWide(s, a, b, t);
    WideIsWellFormed(net, s, a, b, t);
    WideOptimum(net, s, a, b, t, total);
    NoSmallCut(net, s, t, total);
    TwiceWraps();
  }

  lemma WideIsWellFormed(net: Network, s: Node, a: Node, b: Node, t: Node)
    requires Different(s, a, b, t) && IsWide(net, s, a, b, t)
    ensures Ints(net) && WellFormed(net)
  {
  }

  lemma WideOptimum(net: Network, s: Node, a: Node, b: Node, t: Node, total: nat)
    requires Different(s, a, b, t) && IsWide(net, s, a, b, t) && total == 2 * MAX_INT
    ensures IsMaxFlowValue(net, s, t, total)
    ensures forall c :: IsCut(net, s, t, c) ==> total <= CutCapacity(net, s, t, c)
  {
    WideIsWellFormed(net, s, a, b, t);
    WideFlow(net, s, a, b, t);
    WideCut(net, s, a, b, t);
    MeetingIsOptimal(net, s, t, Full(net), total, {s});
  }

  lemma TwiceWraps()
    ensures Wrap(2 * MAX_INT) == -2
  {
    WrapPeriod(2 * MAX_INT);
  }

  lemma NoSmallCut(net: Network, s: Node, t: Node, total: nat)
    requires IsMaxFlowValue(net, s, t, total) && total > MAX_INT
    requires forall c :: IsCut(net, s, t, c) ==> total <= CutCapacity(net, s, t, c)
    ensures !SmallCut(net, s, t) && ShowsMaxFlow(net, s, t, Wrap(total), total)
  {
    assert IsMaxFlowValue(net, s, t, Wrap(total)) ==> Wrap(total) == total;
  }

  // ----- a residual capacity that does not fit

  /**
   * The nodes are numbered: 0 is the source, 7 the sink, 0-1-2-3-7 and 0-4-5-6-7 are two disjoint ways, and 1 and 6 are
   * joined by `c` in one direction and `d` in the other. The ways are just wide enough to push `d` out of range.
   */
  predicate WayEdge(i: int, j: int)
  {
    || (i == 0 && (j == 1 || j == 4)) || (i == 1 && j == 2) || (i == 2 && j == 3)
    || (i == 4 && j == 5) || (i == 5 && j == 6) || ((i == 3 || i == 6) && j == 7)
  }

  /** Two opposite capacities, each an int, that do not fit together. */
  predicate Overlarge(c: int, d: int)
  {
    c <= MAX_INT && d <= MAX_INT && c + d > MAX_INT
  }

  function Width(d: int): int
  {
    MAX_INT + 1 - d
  }

  function TwistedCap(c: int, d: int, i: int, j: int): int
  {
    if i == 1 && j == 6 then c else if i == 6 && j == 1 then d else if WayEdge(i, j) then Width(d) else 0
  }

  function Twisted(c: int, d: int, n: seq<Node>): Network
    requires |n| == 8
  {
    var b := Width(d);
    map[n[0] := map[n[1] := b, n[4] := b], n[1] := map[n[2] := b, n[6] := c], n[2] := map[n[3] := b],
        n[3] := map[n[7] := b], n[4] := map[n[5] := b], n[5] := map[n[6] := b], n[6] := map[n[7] := b, n[1] := d]]
  }

  ghost predicate IsTwisted(net: Network, c: int, d: int, n: seq<Node>)
    requires |n| == 8
  {
    && Universe(net, n[0], n[7]) == Members(n)
    && (forall i, j :: 0 <= i < 8 && 0 <= j < 8 ==> Cap(net, n[i], n[j]) == TwistedCap(c, d, i, j))
    && (forall u, v :: Cap(net, u, v) != 0 ==> u in n && v in n)
  }

  /** The path every search must find first. */
  function First(n: seq<Node>): seq<Node>
    requires |n| == 8
  {
    [n[0], n[1], n[6], n[7]]
  }

  lemma Numbered(n: seq<Node>, u: Node) returns (i: nat)
    requires u in n
    ensures i < |n| && n[i] == u
  {
    i :| 0 <= i < |n| && n[i] == u;
  }

  lemma NextNode(net: Network, c: int, d: int, n: seq<Node>, i: nat, v: Node) returns (j: nat)
    requires |n| == 8 && Distinct(n) && Overlarge(c, d) && IsTwisted(net, c, d, n) && i < 8 && Cap(net, n[i], v) > 0
    ensures j < 8 && n[j] == v && TwistedCap(c, d, i, j) > 0
  {
    j := Numbered(n, v);
  }

  /** It is the only walk of at most three edges, so no order of the maps leads the search elsewhere. */
  lemma FirstIsForced(net: Network, c: int, d: int, n: seq<Node>, q: seq<Node>)
    requires |n| == 8 && Distinct(n) && Overlarge(c, d) && IsTwisted(net, c, d, n)
    requires Walk(net, q, n[0], n[7]) && |q| <= 4
    ensures q == First(n)
  {
    assert n[0] != n[7];
    assert Cap(net, q[0], q[0 + 1]) > 0;
    var a := NextNode(net, c, d, n, 0, q[1]);
    if |q| > 2 {
      assert Cap(net, q[1], q[1 + 1]) > 0;
      var b := NextNode(net, c, d, n, a, q[2]);
      if |q| > 3 {
        assert Cap(net, q[2], q[2 + 1]) > 0;
        var c := NextNode(net, c, d, n, b, q[3]);
      }
    }
  }

  lemma FirstIsWalk(net: Network, c: int, d: int, n: seq<Node>)
    requires |n| == 8 && Distinct(n) && Overlarge(c, d) && IsTwisted(net, c, d, n)
    ensures Walk(net, First(n), n[0], n[7]) && Distinct(First(n)) && IsBottleneck(net, First(n), Width(d))
  {
    var p := First(n);
    assert Cap(net, p[0], p[0 + 1]) == TwistedCap(c, d, 0, 1);
    assert Cap(net, p[1], p[1 + 1]) == TwistedCap(c, d, 1, 6);
    assert Cap(net, p[2], p[2 + 1]) == TwistedCap(c, d, 6, 7);
  }

  /** After it the way back from 6 to 1 has wrapped, and the sink is out of reach. */
  lemma StuckAfterFirst(net: Network, c: int, d: int, n: seq<Node>)
    requires |n| == 8 && Distinct(n) && Overlarge(c, d) && IsTwisted(net, c, d, n)
    ensures !HasWalk(Augmented(net, First(n), 0, Width(d)), n[0], n[7])
  {
    var p, side := First(n), {n[0], n[4], n[5], n[6]};
    var after := Augmented(net, p, 0, Width(d));
    forall u, v | u in side && Cap(after, u, v) > 0
      ensures v in side
    {
      StuckEdge(net, c, d, n, u, v);
    }
    NoWalkOut(after, n[0], n[7], side);
  }

  lemma FirstFollows(n: seq<Node>, i: nat, j: nat)
    requires |n| == 8 && Distinct(n) && i < 8 && j < 8
    ensures Follows(First(n), 0, n[i], n[j]) <==> (i == 0 && j == 1) || (i == 1 && j == 6) || (i == 6 && j == 7)
  {
    var p := First(n);
    if Follows(p, 0, n[i], n[j]) {
      var k :| 0 <= k < |p| - 1 && p[k] == n[i] && p[k + 1] == n[j];
    }
    if i == 0 && j == 1 {
      assert p[0] == n[i] && p[0 + 1] == n[j];
    }
    if i == 1 && j == 6 {
      assert p[1] == n[i] && p[1 + 1] == n[j];
    }
    if i == 6 && j == 7 {
      assert p[2] == n[i] && p[2 + 1] == n[j];
    }
  }

  lemma StuckEdge(net: Network, c: int, d: int, n: seq<Node>, u: Node, v: Node)
    requires |n| == 8 && Distinct(n) && Overlarge(c, d) && IsTwisted(net, c, d, n)
    requires u in {n[0], n[4], n[5], n[6]} && Cap(Augmented(net, First(n), 0, Width(d)), u, v) > 0
    ensures v in {n[0], n[4], n[5], n[6]}
  {
    var i: nat := if u == n[0] then 0 else if u == n[4] then 4 else if u == n[5] then 5 else 6;
    AugmentedCap(net, First(n), 0, Width(d), u, v);
    assert v in n;
    var j := Numbered(n, v);
    FirstFollows(n, i, j);
    FirstFollows(n, j, i);
    assert Cap(net, n[i], n[j]) == TwistedCap(c, d, i, j);
    assert d + Width(d) == MAX_INT + 1 && Wrap(MAX_INT + 1) < 0;
  }

  // ----- the flow it misses

  function Next(i: int): int
  {
    if i == 3 || i == 6 then 7 else i + 1
  }

  function Previous(i: int): int
  {
    if i == 1 || i == 4 then 0 else i - 1
  }

  ghost predicate OnWay(n: seq<Node>, u: Node, v: Node)
    requires |n| == 8
  {
    exists i, j :: 0 <= i < 8 && 0 <= j < 8 && n[i] == u && n[j] == v && WayEdge(i, j)
  }

  /** Both of the two ways, filled with `b`. */
  ghost function Both(b: int, n: seq<Node>): Flow
    requires |n| == 8
  {
    map p | p in Pairs(Members(n)) && OnWay(n, p.0, p.1) :: b
  }

  lemma BothAt(b: int, n: seq<Node>, i: nat, j: nat)
    requires |n| == 8 && Distinct(n) && i < 8 && j < 8
    ensures At(Both(b, n), n[i], n[j]) == if WayEdge(i, j) then b else 0
  {
    assert (n[i], n[j]) in Pairs(Members(n));
    assert OnWay(n, n[i], n[j]) <==> WayEdge(i, j);
  }

  lemma SumOfOne(f: Node -> int, n: seq<Node>, k: nat)
    requires k < |n| && Distinct(n) && forall i :: 0 <= i < |n| && i != k ==> f(n[i]) == 0
    ensures Sum(f, Members(n)) == f(n[k])
  {
    var nodes := Members(n);
    SumRemove(f, nodes, n[k]);
    forall z | z in nodes - {n[k]}
      ensures f(z) == 0
    {
      var i := Numbered(n, z);
    }
    SumSame(f, z => 0, nodes - {n[k]});
    SumZero(z => 0, nodes - {n[k]});
  }

  lemma BothBalanced(b: int, n: seq<Node>, i: nat)
    requires |n| == 8 && Distinct(n) && 0 < i < 7
    ensures Outflow(Both(b, n), n[i], Members(n)) == b && Inflow(Both(b, n), n[i], Members(n)) == b
  {
    var f := Both(b, n);
    forall j | 0 <= j < 8
      ensures At(f, n[i], n[j]) == if j == Next(i) then b else 0
      ensures At(f, n[j], n[i]) == if j == Previous(i) then b else 0
    {
      BothAt(b, n, i, j);
      BothAt(b, n, j, i);
    }
    SumOfOne(Row(Amount(f), n[i]), n, Next(i));
    SumOfOne(Row(Received(f), n[i]), n, Previous(i));
  }

  lemma BothLeaves(b: int, n: seq<Node>)
    requires |n| == 8 && Distinct(n)
    ensures Outflow(Both(b, n), n[0], Members(n)) == 2 * b && Inflow(Both(b, n), n[0], Members(n)) == 0
  {
    var f, nodes := Both(b, n), Members(n);
    forall j | 0 <= j < 8
      ensures At(f, n[0], n[j]) == (if j == 1 || j == 4 then b else 0) && At(f, n[j], n[0]) == 0
    {
      BothAt(b, n, 0, j);
      BothAt(b, n, j, 0);
    }
    forall z | z in nodes && z != n[1] && z != n[4]
      ensures Row(Amount(f), n[0])(z) == 0
    {
      var j := Numbered(n, z);
    }
    SumOfTwo(Row(Amount(f), n[0]), nodes, n[1], n[4]);
    SumOfOne(Row(Received(f), n[0]), n, 0);
  }

  lemma BothWithin(net: Network, c: int, d: int, n: seq<Node>)
    requires |n| == 8 && Distinct(n) && Overlarge(c, d) && IsTwisted(net, c, d, n)
    ensures forall u, v :: 0 <= At(Both(Width(d), n), u, v) <= Cap(net, u, v)
  {
    var f := Both(Width(d), n);
    forall u, v
      ensures 0 <= At(f, u, v) <= Cap(net, u, v)
    {
      if (u, v) in f {
        var i, j :| 0 <= i < 8 && 0 <= j < 8 && n[i] == u && n[j] == v && WayEdge(i, j);
        assert Cap(net, n[i], n[j]) == TwistedCap(c, d, i, j);
      } else {
        TwistedNonNegative(net, c, d, n, u, v);
      }
    }
  }

  lemma BothFeasible(net: Network, c: int, d: int, n: seq<Node>)
    requires |n| == 8 && Distinct(n) && Overlarge(c, d) && IsTwisted(net, c, d, n)
    ensures Feasible(net, n[0], n[7], Both(Width(d), n)) && Value(net, n[0], n[7], Both(Width(d), n)) == 2 * Width(d)
  {
    var f := Both(Width(d), n);
    BothWithin(net, c, d, n);
    forall u | u in Members(n) && u != n[0] && u != n[7]
      ensures Outflow(f, u, Members(n)) == Inflow(f, u, Members(n))
    {
      var i := Numbered(n, u);
      BothBalanced(Width(d), n, i);
    }
    BothLeaves(Width(d), n);
  }

  lemma TwistedNonNegative(net: Network, c: int, d: int, n: seq<Node>, u: Node, v: Node)
    requires |n| == 8 && Distinct(n) && Overlarge(c, d) && IsTwisted(net, c, d, n)
    ensures 0 <= Cap(net, u, v) <= MAX_INT
  {
    if Cap(net, u, v) != 0 {
      var i := Numbered(n, u);
      var j := Numbered(n, v);
      assert Cap(net, n[i], n[j]) == TwistedCap(c, d, i, j);
    }
  }

  /** No negative capacity, and `u` and `v` are the only nodes whose capacities to each other do not fit together. */
  ghost predicate OnlyPairLeavesRange(net: Network, u: Node, v: Node)
  {
    && Cap(net, u, v) + Cap(net, v, u) > MAX_INT
    && forall x, y :: 0 <= Cap(net, x, y) &&
         (x != y && !(x == u && y == v) && !(x == v && y == u) ==> Cap(net, x, y) + Cap(net, y, x) <= MAX_INT)
  }

  lemma TwistedPair(net: Network, c: int, d: int, n: seq<Node>, u: Node, v: Node)
    requires |n| == 8 && Distinct(n) && Overlarge(c, d) && IsTwisted(net, c, d, n)
    requires u != v && !(u == n[1] && v == n[6]) && !(u == n[6] && v == n[1])
    ensures Cap(net, u, v) + Cap(net, v, u) <= MAX_INT
  {
    if u in n && v in n {
      var i := Numbered(n, u);
      var j := Numbered(n, v);
      assert Cap(net, n[i], n[j]) == TwistedCap(c, d, i, j) && Cap(net, n[j], n[i]) == TwistedCap(c, d, j, i);
    }
  }

  lemma TwistedLeavesRange(net: Network, c: int, d: int, n: seq<Node>)
    requires |n| == 8 && Distinct(n) && Overlarge(c, d) && IsTwisted(net, c, d, n)
    ensures Ints(net) && OnlyPairLeavesRange(net, n[1], n[6])
  {
    forall u, v
      ensures 0 <= Cap(net, u, v) <= MAX_INT
    {
      TwistedNonNegative(net, c, d, n, u, v);
    }
    forall u, v | u != v && !(u == n[1] && v == n[6]) && !(u == n[6] && v == n[1])
      ensures Cap(net, u, v) + Cap(net, v, u) <= MAX_INT
    {
      TwistedPair(net, c, d, n, u, v);
    }
    assert Cap(net, n[1], n[6]) == TwistedCap(c, d, 1, 6) && Cap(net, n[6], n[1]) == TwistedCap(c, d, 6, 1);
  }

  /** `p` is a walk, and there is no other of its length or less. */
  ghost predicate OnlyShortWalk(res: Network, p: seq<Node>, source: Node, sink: Node)
  {
    Walk(res, p, source, sink) && forall q :: Walk(res, q, source, sink) && |q| <= |p| ==> q == p
  }

  lemma FirstIsOnly(net: Network, c: int, d: int, n: seq<Node>)
    requires |n| == 8 && Distinct(n) && Overlarge(c, d) && IsTwisted(net, c, d, n)
    ensures OnlyShortWalk(net, First(n), n[0], n[7])
  {
    FirstIsWalk(net, c, d, n);
    forall q | Walk(net, q, n[0], n[7]) && |q| <= 4
      ensures q == First(n)
    {
      FirstIsForced(net, c, d, n, q);
    }
  }

  /**
   * For any two opposite capacities that do not fit together there is a network, in order otherwise, on which the
   * answer is wrong: the search is forced along one path, fills it, and is stuck, yet twice the value is feasible.
   */
  lemma TwistedNetworkFails(net: Network, c: int, d: int, n: seq<Node>)
    requires |n| == 8 && Distinct(n) && Overlarge(c, d) && IsTwisted(net, c, d, n)
    ensures Ints(net) && OnlyPairLeavesRange(net, n[1], n[6])
    ensures OnlyShortWalk(net, First(n), n[0], n[7]) && IsBottleneck(net, First(n), Width(d))
    ensures !HasWalk(Augmented(net, First(n), 0, Width(d)), n[0], n[7])
    ensures Feasible(net, n[0], n[7], Both(Width(d), n)) && Value(net, n[0], n[7], Both(Width(d), n)) == 2 * Width(d)
  {
    TwistedLeavesRange(net, c, d, n);
    FirstIsOnly(net, c, d, n);
    FirstIsWalk(net, c, d, n);
    StuckAfterFirst(net, c, d, n);
    BothFeasible(net, c, d, n);
  }

  // ----- what the algorithm answers there

  lemma BottleneckUnique(res: Network, p: seq<Node>, b: int, b': int)
    requires Ints(res) && |p| > 1 && IsBottleneck(res, p, b) && IsBottleneck(res, p, b')
    ensures b == b'
  {
    assert Cap(res, p[0], p[0 + 1]) <= MAX_INT;
  }

  /** However the maps are read, the result is what the one forced path carries. */
  lemma TwistedAnswer(net: Network, c: int, d: int, n: seq<Node>, total: int)
    requires |n| == 8 && Distinct(n) && Overlarge(c, d) && IsTwisted(net, c, d, n)
    requires Outcome(net, n[0], n[7], total)
    ensures total == Width(d)
  {
    FirstIsWalk(net, c, d, n);
    var res :| Traced(net, n[0], n[7], res, total) && !HasWalk(res, n[0], n[7]);
    var rs, ps, bs :| Trace(net, n[0], n[7], rs, ps, bs) && rs[|ps|] == res && SumOf(bs) == total;
    TraceMoves(net, n[0], n[7], rs, ps, bs, First(n));
    FirstOfTrace(net, c, d, n, rs[1], ps[0], bs[0]);
    TraceStops(net, n[0], n[7], rs, ps, bs);
  }

  /** A run that ends stuck where there was a walk has a first step. */
  lemma TraceMoves(net: Network, source: Node, sink: Node, rs: seq<Network>, ps: seq<seq<Node>>, bs: seq<int>,
                   p: seq<Node>)
    requires Trace(net, source, sink, rs, ps, bs) && Walk(net, p, source, sink) && !HasWalk(rs[|ps|], source, sink)
    ensures |ps| > 0 && AugmentedAt(source, sink, rs, ps, bs, 0)
  {
    assert HasWalk(net, source, sink);
  }

  lemma TraceStops(net: Network, source: Node, sink: Node, rs: seq<Network>, ps: seq<seq<Node>>, bs: seq<int>)
    requires Trace(net, source, sink, rs, ps, bs) && |ps| > 0 && !HasWalk(rs[1], source, sink)
    ensures |ps| == 1 && SumOf(bs) == bs[0]
  {
    assert bs[..0] == [];
    if |ps| > 1 {
      TraceWalks(net, source, sink, rs, ps, bs, 1);
    }
  }

  lemma TraceWalks(net: Network, source: Node, sink: Node, rs: seq<Network>, ps: seq<seq<Node>>, bs: seq<int>, k: nat)
    requires Trace(net, source, sink, rs, ps, bs) && k < |ps|
    ensures HasWalk(rs[k], source, sink)
  {
    assert AugmentedAt(source, sink, rs, ps, bs, k);
  }

  lemma FirstOfTrace(net: Network, c: int, d: int, n: seq<Node>, after: Network, p: seq<Node>, b: int)
    requires |n| == 8 && Distinct(n) && Overlarge(c, d) && IsTwisted(net, c, d, n)
    requires Walk(net, p, n[0], n[7]) && NoShorterWalk(net, n[0], n[7], |p| - 1) && IsBottleneck(net, p, b)
    requires after == Augmented(net, p, 0, b)
    ensures b == Width(d) && !HasWalk(after, n[0], n[7])
  {
    TwistedNetworkFails(net, c, d, n);
    assert |p| <= |First(n)|;
    assert p == First(n);
    BottleneckUnique(net, p, b, Width(d));
  }

  /** And that is a possible result, so the search has somewhere to go. */
  lemma TwistedRun(net: Network, c: int, d: int, n: seq<Node>)
    requires |n| == 8 && Distinct(n) && Overlarge(c, d) && IsTwisted(net, c, d, n)
    ensures Outcome(net, n[0], n[7], Width(d))
  {
    TwistedNetworkFails(net, c, d, n);
    FirstIsWalk(net, c, d, n);
    var p, b := First(n), Width(d);
    TraceStarts(net, n[0], n[7]);
    forall q | Walk(net, q, n[0], n[7])
      ensures |p| - 1 < |q|
    {
      assert |q| <= |p| ==> q == p;
    }
    TraceExtends(net, n[0], n[7], net, 0, p, b, b);
  }

  // ----- the exact bound for opposite capacities

  /** Two nodes with these capacities to each other, in a network that is otherwise in range. */
  ghost predicate HasPair(net: Network, u: Node, v: Node, c: int, d: int)
  {
    && u != v && Cap(net, u, v) == c && Cap(net, v, u) == d && Ints(net)
    && forall x, y :: 0 <= Cap(net, x, y) &&
         (x != y && !(x == u && y == v) && !(x == v && y == u) ==> Cap(net, x, y) + Cap(net, y, x) <= MAX_INT)
  }

  /** Every possible result on every such network is the maximum flow value. */
  ghost predicate AnsweredRight(c: int, d: int)
  {
    forall net, u, v, source, sink, total {:trigger HasPair(net, u, v, c, d), Outcome(net, source, sink, total)} ::
      HasPair(net, u, v, c, d) && source != sink && Outcome(net, source, sink, total) ==>
        IsMaxFlowValue(net, source, sink, total)
  }

  lemma FittingPair(net: Network, u: Node, v: Node, c: int, d: int)
    requires HasPair(net, u, v, c, d) && c + d <= MAX_INT
    ensures WellFormed(net)
  {
  }

  function EightNames(): (n: seq<Node>)
    ensures |n| == 8 && Distinct(n)
  {
    ["0", "1", "2", "3", "4", "5", "6", "7"]
  }

  /** Two opposite capacities are safe in every network if and only if they fit together. */
  lemma PairIff(c: int, d: int)
    requires 0 <= c <= MAX_INT && 0 <= d <= MAX_INT
    ensures AnsweredRight(c, d) <==> c + d <= MAX_INT
  {
    if c + d <= MAX_INT {
      forall net, u, v, source, sink, total |
        HasPair(net, u, v, c, d) && source != sink && Outcome(net, source, sink, total)
        ensures IsMaxFlowValue(net, source, sink, total)
      {
        FittingPair(net, u, v, c, d);
        OutcomeIsMax(net, source, sink, total);
      }
    } else {
      var n := EightNames();
      TwistedIsTwisted(c, d, n);
      TwistedWrong(Twisted(c, d, n), c, d, n);
    }
  }

  lemma TwistedWrong(net: Network, c: int, d: int, n: seq<Node>)
    requires |n| == 8 && Distinct(n) && Overlarge(c, d) && IsTwisted(net, c, d, n)
    ensures HasPair(net, n[1], n[6], c, d) && n[0] != n[7]
    ensures Outcome(net, n[0], n[7], Width(d)) && !IsMaxFlowValue(net, n[0], n[7], Width(d))
  {
    TwistedNetworkFails(net, c, d, n);
    TwistedRun(net, c, d, n);
    assert Cap(net, n[1], n[6]) == TwistedCap(c, d, 1, 6) && Cap(net, n[6], n[1]) == TwistedCap(c, d, 6, 1);
    assert Value(net, n[0], n[7], Both(Width(d), n)) > Width(d);
  }

  ghost predicate HasRows(net: Network, c: int, d: int, n: seq<Node>)
    requires |n| == 8
  {
    var b := Width(d);
    && net.Keys == {n[0], n[1], n[2], n[3], n[4], n[5], n[6]}
    && net[n[0]] == map[n[1] := b, n[4] := b] && net[n[1]] == map[n[2] := b, n[6] := c]
    && net[n[2]] == map[n[3] := b] && net[n[3]] == map[n[7] := b] && net[n[4]] == map[n[5] := b]
    && net[n[5]] == map[n[6] := b] && net[n[6]] == map[n[7] := b, n[1] := d]
  }

  lemma TwistedRows(c: int, d: int, n: seq<Node>)
    requires |n| == 8 && Distinct(n)
    ensures HasRows(Twisted(c, d, n), c, d, n)
  {
  }

  lemma RowsGiveCaps(net: Network, c: int, d: int, n: seq<Node>, i: nat, j: nat)
    requires |n| == 8 && Distinct(n) && HasRows(net, c, d, n) && i < 8 && j < 8
    ensures Cap(net, n[i], n[j]) == TwistedCap(c, d, i, j)
  {
  }

  lemma RowsGiveNodes(net: Network, c: int, d: int, n: seq<Node>)
    requires |n| == 8 && HasRows(net, c, d, n)
    ensures Nodes(net) == Members(n)
  {
    forall x | x in Members(n)
      ensures x in Nodes(net)
    {
      var i := Numbered(n, x);
      assert n[7] in net[n[3]];
    }
    forall u, v | u in net && v in net[u]
      ensures v in Members(n)
    {
      var i := Numbered(n, u);
    }
  }

  /** There is such a network for any two capacities and any eight names. */
  lemma TwistedIsTwisted(c: int, d: int, n: seq<Node>)
    requires |n| == 8 && Distinct(n)
    ensures IsTwisted(Twisted(c, d, n), c, d, n)
  {
    TwistedRows(c, d, n);
    RowsAreTwisted(Twisted(c, d, n), c, d, n);
  }

  lemma RowsAreTwisted(net: Network, c: int, d: int, n: seq<Node>)
    requires |n| == 8 && Distinct(n) && HasRows(net, c, d, n)
    ensures IsTwisted(net, c, d, n)
  {
    forall i, j | 0 <= i < 8 && 0 <= j < 8
      ensures Cap(net, n[i], n[j]) == TwistedCap(c, d, i, j)
    {
      RowsGiveCaps(net, c, d, n, i, j);
    }
    RowsGiveNodes(net, c, d, n);
    forall u, v | Cap(net, u, v) != 0
      ensures u in n && v in n
    {
      assert u in Nodes(net) && v in Nodes(net);
    }
  }
}

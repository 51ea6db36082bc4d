/** Merkle roots with domain separation: what a root commits to, and what only the stored count settles. */
module Commitment {

  newtype Byte = x: int | 0 <= x < 256

  type Digest = d: seq<Byte> | |d| == 32 witness seq(32, i => 0)

  /**
   * The hash function stays abstract. It has collisions, as any function into 32 bytes must, so no claim is "or a
   * collision exists": what is claimed is a collision among the strings that were hashed for the two roots at hand.
   */
  type Hash = seq<Byte> -> Digest

  /** Two different strings, one from each set, with the same hash. */
  ghost predicate CollisionIn(h: Hash, xs: set<seq<Byte>>, ys: set<seq<Byte>>)
  {
    exists x, y :: x in xs && y in ys && x != y && h(x) == h(y)
  }

  const LEAF_PREFIX: Byte := 0x00
  const PAIR_PREFIX: Byte := 0x01

  /** The text "empty-merkle-root". */
  const EMPTY_TEXT: seq<Byte> :=
    [101, 109, 112, 116, 121, 45, 109, 101, 114, 107, 108, 101, 45, 114, 111, 111, 116]

  function HashLeaf(h: Hash, value: seq<Byte>): Digest
  {
    h([LEAF_PREFIX] + value)
  }

  function HashPair(h: Hash, left: Digest, right: Digest): Digest
  {
    h([PAIR_PREFIX] + left + right)
  }

  // ----- the root as the source computes it

  /** One layer up; an odd node is paired with itself. */
  function NextLayer(h: Hash, nodes: seq<Digest>): (r: seq<Digest>)
    ensures |r| == (|nodes| + 1) / 2
  {
    if |nodes| == 0 then []
    else if |nodes| == 1 then [HashPair(h, nodes[0], nodes[0])]
    else [HashPair(h, nodes[0], nodes[1])] + NextLayer(h, nodes[2..])
  }

  function Climb(h: Hash, nodes: seq<Digest>): Digest
    requires |nodes| > 0
    decreases |nodes|
  {
    if |nodes| == 1 then nodes[0] else Climb(h, NextLayer(h, nodes))
  }

  function LeafHashes(h: Hash, leaves: seq<seq<Byte>>): (r: seq<Digest>)
    ensures |r| == |leaves|
  {
    if leaves == [] then [] else [HashLeaf(h, leaves[0])] + LeafHashes(h, leaves[1..])
  }

  function RootOf(h: Hash, leaves: seq<seq<Byte>>): Digest
  {
    if leaves == [] then h(EMPTY_TEXT) else Climb(h, LeafHashes(h, leaves))
  }

  /** The nodes still to be paired. */
  ghost function RestFrom(nodes: seq<Digest>, i: nat): seq<Digest>
  {
    if i <= |nodes| then nodes[i..] else []
  }

  lemma LayerStep(h: Hash, nodes: seq<Digest>, i: nat)
    requires i < |nodes|
    ensures NextLayer(h, RestFrom(nodes, i)) ==
            [HashPair(h, nodes[i], nodes[if i + 1 < |nodes| then i + 1 else i])] + NextLayer(h, RestFrom(nodes, i + 2))
  {
    var rest := nodes[i..];
    if i + 1 < |nodes| {
      assert rest[2..] == nodes[i + 2..];
    } else {
      assert rest == [nodes[i]];
    }
  }

  /** The inner loop: pairs up neighbours from left to right. */
  method BuildLayer(h: Hash, nodes: seq<Digest>) returns (next: seq<Digest>)
    ensures next == NextLayer(h, nodes)
  {
    next := [];
    assert RestFrom(nodes, 0) == nodes;
    var i := 0;
    while i < |nodes|
      invariant 0 <= i <= |nodes| + 1
      invariant next + NextLayer(h, RestFrom(nodes, i)) == NextLayer(h, nodes)
      decreases |nodes| - i
    {
      LayerStep(h, nodes, i);
      if i + 1 >= |nodes| {
        next := next + [HashPair(h, nodes[i], nodes[i])];
      } else {
        next := next + [HashPair(h, nodes[i], nodes[i + 1])];
      }
      i := i + 2;
    }
    assert RestFrom(nodes, i) == [];
  }

  method Root(h: Hash, leaves: seq<seq<Byte>>) returns (root: Digest)
    ensures root == RootOf(h, leaves)
  {
    if |leaves| == 0 {
      return h(EMPTY_TEXT);
    }
    var nodes: seq<Digest> := [];
    for i := 0 to |leaves|
      invariant nodes + LeafHashes(h, leaves[i..]) == LeafHashes(h, leaves)
    {
      assert leaves[i..][1..] == leaves[i + 1..];
      nodes := nodes + [HashLeaf(h, leaves[i])];
    }
    assert nodes == LeafHashes(h, leaves);
    while |nodes| > 1
      invariant |nodes| > 0 && Climb(h, nodes) == RootOf(h, leaves)
      decreases |nodes|
    {
      nodes := BuildLayer(h, nodes);
    }
    root := nodes[0];
  }

  /** The bytes of a text. */
  function Bytes(text: string): seq<Byte>
    requires forall i :: 0 <= i < |text| ==> text[i] < 128 as char
  {
    seq(|text|, i requires 0 <= i < |text| => text[i] as int as Byte)
  }

  /** Small lists written out: prefixes, order, the odd node paired with itself, the text for no leaves. */
  lemma SmallRoots(h: Hash, a: seq<Byte>, b: seq<Byte>, c: seq<Byte>)
    ensures RootOf(h, []) == h(Bytes("empty-merkle-root"))
    ensures RootOf(h, [a]) == h([0] + a)
    ensures RootOf(h, [a, b]) == h([1] + h([0] + a) + h([0] + b))
    ensures RootOf(h, [a, b, c]) ==
            h([1] + h([1] + h([0] + a) + h([0] + b)) + h([1] + h([0] + c) + h([0] + c)))
  {
    assert EMPTY_TEXT == Bytes("empty-merkle-root");
    var x, y, z := HashLeaf(h, a), HashLeaf(h, b), HashLeaf(h, c);
    LeafHashesOf(h, a, b, c);
    ClimbTwo(h, x, y);
    ClimbTwo(h, HashPair(h, x, y), HashPair(h, z, z));
    assert [x, y, z][2..] == [z];
    assert NextLayer(h, [x, y, z]) == [HashPair(h, x, y), HashPair(h, z, z)];
  }

  lemma ClimbTwo(h: Hash, x: Digest, y: Digest)
    ensures Climb(h, [x, y]) == HashPair(h, x, y)
  {
    assert [x, y][2..] == [];
    assert NextLayer(h, [x, y]) == [HashPair(h, x, y)];
  }

  lemma LeafHashesOf(h: Hash, a: seq<Byte>, b: seq<Byte>, c: seq<Byte>)
    ensures LeafHashes(h, [a]) == [HashLeaf(h, a)]
    ensures LeafHashes(h, [a, b]) == [HashLeaf(h, a), HashLeaf(h, b)]
    ensures LeafHashes(h, [a, b, c]) == [HashLeaf(h, a), HashLeaf(h, b), HashLeaf(h, c)]
  {
    assert [b, c][1..] == [c] && [a, b][1..] == [b] && [a, b, c][1..] == [b, c];
    assert LeafHashes(h, [c]) == [HashLeaf(h, c)] && LeafHashes(h, [b]) == [HashLeaf(h, b)];
    assert LeafHashes(h, [b, c]) == [HashLeaf(h, b), HashLeaf(h, c)];
  }

  // ----- the tree a root stands for

  datatype Tree = Leaf(value: seq<Byte>) | Node(left: Tree, right: Tree)

  function TreeHash(h: Hash, t: Tree): Digest
  {
    match t
    case Leaf(v) => HashLeaf(h, v)
    case Node(l, r) => HashPair(h, TreeHash(h, l), TreeHash(h, r))
  }

  function PairUp(ts: seq<Tree>): (r: seq<Tree>)
    ensures |r| == (|ts| + 1) / 2
  {
    if |ts| == 0 then []
    else if |ts| == 1 then [Node(ts[0], ts[0])]
    else [Node(ts[0], ts[1])] + PairUp(ts[2..])
  }

  /** The tree over the given subtrees; an odd one appears twice. */
  function Shape(ts: seq<Tree>): Tree
    requires |ts| > 0
    decreases |ts|
  {
    if |ts| == 1 then ts[0] else Shape(PairUp(ts))
  }

  function Leaves(values: seq<seq<Byte>>): (r: seq<Tree>)
    ensures |r| == |values|
    ensures forall i :: 0 <= i < |values| ==> r[i] == Leaf(values[i])
  {
    seq(|values|, i requires 0 <= i < |values| => Leaf(values[i]))
  }

  function Hashes(h: Hash, ts: seq<Tree>): (r: seq<Digest>)
    ensures |r| == |ts|
    ensures forall i :: 0 <= i < |ts| ==> r[i] == TreeHash(h, ts[i])
  {
    if ts == [] then [] else [TreeHash(h, ts[0])] + Hashes(h, ts[1..])
  }

  lemma {:induction false} LayerIsPairUp(h: Hash, ts: seq<Tree>)
    ensures NextLayer(h, Hashes(h, ts)) == Hashes(h, PairUp(ts))
  {
    if |ts| <= 1 {
    } else {
      LayerIsPairUp(h, ts[2..]);
      assert Hashes(h, ts)[2..] == Hashes(h, ts[2..]);
    }
  }

  lemma {:induction false} ClimbIsTreeHash(h: Hash, ts: seq<Tree>)
    requires |ts| > 0
    ensures Climb(h, Hashes(h, ts)) == TreeHash(h, Shape(ts))
    decreases |ts|
  {
    if |ts| <= 1 {
    } else {
      LayerIsPairUp(h, ts);
      ClimbIsTreeHash(h, PairUp(ts));
    }
  }

  lemma {:induction false} LeafHashesAreHashes(h: Hash, values: seq<seq<Byte>>)
    ensures LeafHashes(h, values) == Hashes(h, Leaves(values))
  {
    if values == [] {
    } else {
      LeafHashesAreHashes(h, values[1..]);
      assert Leaves(values)[1..] == Leaves(values[1..]);
    }
  }

  /** The root is the plain recursive hash of the tree. */
  lemma RootIsTreeHash(h: Hash, values: seq<seq<Byte>>)
    requires values != []
    ensures RootOf(h, values) == TreeHash(h, Shape(Leaves(values)))
  {
    LeafHashesAreHashes(h, values);
    ClimbIsTreeHash(h, Leaves(values));
  }

  // ----- binding

  lemma PairInjective(l1: Digest, r1: Digest, l2: Digest, r2: Digest)
    requires [PAIR_PREFIX] + l1 + r1 == [PAIR_PREFIX] + l2 + r2
    ensures l1 == l2 && r1 == r2
  {
    var a, b := [PAIR_PREFIX] + l1 + r1, [PAIR_PREFIX] + l2 + r2;
    assert l1 == a[1..33] && l2 == b[1..33];
    assert r1 == a[33..] && r2 == b[33..];
  }

  /** What is hashed last for a tree. */
  function Preimage(h: Hash, t: Tree): seq<Byte>
  {
    match t
    case Leaf(v) => [LEAF_PREFIX] + v
    case Node(l, r) => [PAIR_PREFIX] + TreeHash(h, l) + TreeHash(h, r)
  }

  /** Every string that is hashed for a tree. */
  ghost function Hashed(h: Hash, t: Tree): set<seq<Byte>>
  {
    {Preimage(h, t)} + if t.Leaf? then {} else Hashed(h, t.left) + Hashed(h, t.right)
  }

  lemma CollisionMonotone(h: Hash, xs: set<seq<Byte>>, ys: set<seq<Byte>>, xs': set<seq<Byte>>, ys': set<seq<Byte>>)
    requires CollisionIn(h, xs, ys) && xs <= xs' && ys <= ys'
    ensures CollisionIn(h, xs', ys')
  {
  }

  /** Equal last strings mean equal leaves, or two nodes with equal hashes on both sides. */
  lemma PreimageInjective(h: Hash, t: Tree, u: Tree)
    requires Preimage(h, t) == Preimage(h, u)
    ensures t.Leaf? == u.Leaf?
    ensures t.Leaf? ==> t == u
    ensures t.Node? ==> TreeHash(h, t.left) == TreeHash(h, u.left) && TreeHash(h, t.right) == TreeHash(h, u.right)
  {
    assert Preimage(h, t)[0] == if t.Leaf? then LEAF_PREFIX else PAIR_PREFIX;
    assert Preimage(h, u)[0] == if u.Leaf? then LEAF_PREFIX else PAIR_PREFIX;
    if t.Leaf? {
      assert t.value == Preimage(h, t)[1..] && u.value == Preimage(h, u)[1..];
    } else {
      PairInjective(TreeHash(h, t.left), TreeHash(h, t.right), TreeHash(h, u.left), TreeHash(h, u.right));
    }
  }

  /** Different trees with the same hash exhibit a collision between strings hashed for the one and for the other. */
  lemma {:induction false} TreeHashBinds(h: Hash, t: Tree, u: Tree)
    requires TreeHash(h, t) == TreeHash(h, u)
    ensures t == u || CollisionIn(h, Hashed(h, t), Hashed(h, u))
  {
    var x, y := Preimage(h, t), Preimage(h, u);
    assert x in Hashed(h, t) && y in Hashed(h, u) && h(x) == h(y);
    if x == y {
      PreimageInjective(h, t, u);
      if t.Node? {
        TreeHashBinds(h, t.left, u.left);
        TreeHashBinds(h, t.right, u.right);
        if t.left != u.left {
          CollisionMonotone(h, Hashed(h, t.left), Hashed(h, u.left), Hashed(h, t), Hashed(h, u));
        } else if t.right != u.right {
          CollisionMonotone(h, Hashed(h, t.right), Hashed(h, u.right), Hashed(h, t), Hashed(h, u));
        }
      }
    }
  }

  lemma {:induction false} PairUpInjective(a: seq<Tree>, b: seq<Tree>)
    requires |a| == |b| && PairUp(a) == PairUp(b)
    ensures a == b
  {
    if |a| > 0 {
      assert PairUp(a)[0] == PairUp(b)[0];
    }
    if |a| <= 1 {
    } else {
      assert PairUp(a)[1..] == PairUp(a[2..]) && PairUp(b)[1..] == PairUp(b[2..]);
      PairUpInjective(a[2..], b[2..]);
      assert a == [a[0], a[1]] + a[2..] && b == [b[0], b[1]] + b[2..];
    }
  }

  lemma {:induction false} ShapeInjective(a: seq<Tree>, b: seq<Tree>)
    requires |a| == |b| > 0 && Shape(a) == Shape(b)
    ensures a == b
    decreases |a|
  {
    if |a| <= 1 {
    } else {
      ShapeInjective(PairUp(a), PairUp(b));
      PairUpInjective(a, b);
    }
  }

  /** Every string that is hashed for the root of a list. */
  ghost function HashedFor(h: Hash, values: seq<seq<Byte>>): set<seq<Byte>>
  {
    if values == [] then {EMPTY_TEXT} else Hashed(h, Shape(Leaves(values)))
  }

  lemma EmptyIsApart(h: Hash, values: seq<seq<Byte>>)
    requires values != [] && RootOf(h, values) == h(EMPTY_TEXT)
    ensures CollisionIn(h, HashedFor(h, values), HashedFor(h, []))
    ensures CollisionIn(h, HashedFor(h, []), HashedFor(h, values))
  {
    RootIsTreeHash(h, values);
    var x := Preimage(h, Shape(Leaves(values)));
    assert x[0] != EMPTY_TEXT[0];
    assert x in HashedFor(h, values) && EMPTY_TEXT in HashedFor(h, []);
  }

  /** Root and count together commit to the leaves, or the two lists exhibit a collision. */
  lemma RootAndCountBind(h: Hash, xs: seq<seq<Byte>>, ys: seq<seq<Byte>>)
    requires |xs| == |ys| && RootOf(h, xs) == RootOf(h, ys)
    ensures xs == ys || CollisionIn(h, HashedFor(h, xs), HashedFor(h, ys))
  {
    if xs != [] {
      RootIsTreeHash(h, xs);
      RootIsTreeHash(h, ys);
      TreeHashBinds(h, Shape(Leaves(xs)), Shape(Leaves(ys)));
      if Shape(Leaves(xs)) == Shape(Leaves(ys)) {
        ShapeInjective(Leaves(xs), Leaves(ys));
        assert forall i :: 0 <= i < |xs| ==> Leaves(xs)[i] == Leaf(xs[i]) && Leaves(ys)[i] == Leaf(ys[i]);
      }
    }
  }

  /** The lists build the same tree. */
  ghost predicate SameTree(xs: seq<seq<Byte>>, ys: seq<seq<Byte>>)
  {
    if xs == [] || ys == [] then xs == ys else Shape(Leaves(xs)) == Shape(Leaves(ys))
  }

  /** Without the count, a root commits to the tree and to nothing more, unless the two lists exhibit a collision. */
  lemma RootCommitsToTree(h: Hash, xs: seq<seq<Byte>>, ys: seq<seq<Byte>>)
    requires !CollisionIn(h, HashedFor(h, xs), HashedFor(h, ys))
    ensures RootOf(h, xs) == RootOf(h, ys) <==> SameTree(xs, ys)
  {
    if xs != [] {
      RootIsTreeHash(h, xs);
    }
    if ys != [] {
      RootIsTreeHash(h, ys);
    }
    if RootOf(h, xs) == RootOf(h, ys) {
      RootBindsTree(h, xs, ys);
    }
  }

  lemma RootBindsTree(h: Hash, xs: seq<seq<Byte>>, ys: seq<seq<Byte>>)
    requires RootOf(h, xs) == RootOf(h, ys)
    ensures SameTree(xs, ys) || CollisionIn(h, HashedFor(h, xs), HashedFor(h, ys))
  {
    if xs != [] && ys != [] {
      RootIsTreeHash(h, xs);
      RootIsTreeHash(h, ys);
      TreeHashBinds(h, Shape(Leaves(xs)), Shape(Leaves(ys)));
    } else if xs != [] {
      EmptyIsApart(h, xs);
    } else if ys != [] {
      EmptyIsApart(h, ys);
    }
  }

  // ----- which lists build the same tree

  /** Neighbouring blocks joined; an odd block is repeated. */
  function JoinUp(blocks: seq<seq<seq<Byte>>>): (r: seq<seq<seq<Byte>>>)
    ensures |r| == (|blocks| + 1) / 2
  {
    if |blocks| == 0 then []
    else if |blocks| == 1 then [blocks[0] + blocks[0]]
    else [blocks[0] + blocks[1]] + JoinUp(blocks[2..])
  }

  function JoinAll(blocks: seq<seq<seq<Byte>>>): seq<seq<Byte>>
    requires |blocks| > 0
    decreases |blocks|
  {
    if |blocks| == 1 then blocks[0] else JoinAll(JoinUp(blocks))
  }

  function Singles(values: seq<seq<Byte>>): (r: seq<seq<seq<Byte>>>)
    ensures |r| == |values|
    ensures forall i :: 0 <= i < |values| ==> r[i] == [values[i]]
  {
    seq(|values|, i requires 0 <= i < |values| => [values[i]])
  }

  /** The list with its odd blocks repeated, at every size, until one block is left. */
  function Padded(values: seq<seq<Byte>>): seq<seq<Byte>>
  {
    if values == [] then [] else JoinAll(Singles(values))
  }

  /** The leaves of a tree from left to right. */
  function Fringe(t: Tree): seq<seq<Byte>>
  {
    match t
    case Leaf(v) => [v]
    case Node(l, r) => Fringe(l) + Fringe(r)
  }

  function Fringes(ts: seq<Tree>): (r: seq<seq<seq<Byte>>>)
    ensures |r| == |ts| && forall i :: 0 <= i < |ts| ==> r[i] == Fringe(ts[i])
  {
    seq(|ts|, i requires 0 <= i < |ts| => Fringe(ts[i]))
  }

  lemma {:induction false} JoinUpFringes(ts: seq<Tree>)
    ensures JoinUp(Fringes(ts)) == Fringes(PairUp(ts))
  {
    if |ts| <= 1 {
    } else {
      JoinUpFringes(ts[2..]);
      assert Fringes(ts)[2..] == Fringes(ts[2..]);
    }
  }

  lemma {:induction false} JoinAllFringes(ts: seq<Tree>)
    requires |ts| > 0
    ensures JoinAll(Fringes(ts)) == Fringe(Shape(ts))
    decreases |ts|
  {
    if |ts| == 1 {
    } else {
      JoinUpFringes(ts);
      JoinAllFringes(PairUp(ts));
    }
  }

  /** All leaves lie at the same depth. */
  predicate Perfect(t: Tree, depth: nat)
  {
    match t
    case Leaf(_) => depth == 0
    case Node(l, r) => depth > 0 && Perfect(l, depth - 1) && Perfect(r, depth - 1)
  }

  lemma {:induction false} PairUpPerfect(ts: seq<Tree>, depth: nat)
    requires forall t :: t in ts ==> Perfect(t, depth)
    ensures forall t :: t in PairUp(ts) ==> Perfect(t, depth + 1)
  {
    if |ts| == 0 {
    } else if |ts| == 1 {
      assert ts[0] in ts;
    } else {
      assert ts[0] in ts && ts[1] in ts;
      PairUpPerfect(ts[2..], depth);
    }
  }

  lemma {:induction false} ShapePerfect(ts: seq<Tree>, depth: nat) returns (full: nat)
    requires |ts| > 0 && forall t :: t in ts ==> Perfect(t, depth)
    ensures Perfect(Shape(ts), full)
    decreases |ts|
  {
    if |ts| == 1 {
      assert ts[0] in ts;
      full := depth;
    } else {
      PairUpPerfect(ts, depth);
      full := ShapePerfect(PairUp(ts), depth + 1);
    }
  }

  function Power(depth: nat): nat
  {
    if depth == 0 then 1 else Power(depth - 1) + Power(depth - 1)
  }

  lemma {:induction false} PerfectSize(t: Tree, depth: nat)
    requires Perfect(t, depth)
    ensures |Fringe(t)| == Power(depth)
  {
    match t
    case Leaf(_) =>
    case Node(l, r) =>
      PerfectSize(l, depth - 1);
      PerfectSize(r, depth - 1);
  }

  lemma {:induction false} PowerGrows(a: nat, b: nat)
    requires a < b
    ensures 0 < Power(a) < Power(b)
  {
    PowerPositive(a);
    PowerPositive(b - 1);
    if a == b - 1 {
    } else {
      PowerGrows(a, b - 1);
    }
  }

  lemma {:induction false} PowerPositive(a: nat)
    ensures Power(a) > 0
  {
    if a == 0 {
    } else {
      PowerPositive(a - 1);
    }
  }

  /** A perfect tree is determined by its leaves. */
  lemma {:induction false} FringeDetermines(t: Tree, u: Tree, depth: nat)
    requires Perfect(t, depth) && Perfect(u, depth) && Fringe(t) == Fringe(u)
    ensures t == u
  {
    match t
    case Leaf(v) => assert Fringe(t)[0] == Fringe(u)[0];
    case Node(l, r) =>
      PerfectSize(l, depth - 1);
      PerfectSize(u.left, depth - 1);
      var n := |Fringe(l)|;
      assert Fringe(t)[..n] == Fringe(l) && Fringe(u)[..n] == Fringe(u.left);
      assert Fringe(t)[n..] == Fringe(r) && Fringe(u)[n..] == Fringe(u.right);
      FringeDetermines(l, u.left, depth - 1);
      FringeDetermines(r, u.right, depth - 1);
  }

  lemma PaddedIsFringe(values: seq<seq<Byte>>) returns (depth: nat)
    requires values != []
    ensures Padded(values) == Fringe(Shape(Leaves(values))) && Perfect(Shape(Leaves(values)), depth)
  {
    assert Fringes(Leaves(values)) == Singles(values);
    JoinAllFringes(Leaves(values));
    forall t | t in Leaves(values)
      ensures Perfect(t, 0)
    {
    }
    depth := ShapePerfect(Leaves(values), 0);
  }

  /** Two lists build the same tree exactly when they agree once their odd blocks are repeated. */
  lemma SameTreeIffPadded(xs: seq<seq<Byte>>, ys: seq<seq<Byte>>)
    ensures SameTree(xs, ys) <==> Padded(xs) == Padded(ys)
  {
    if xs != [] && ys != [] {
      var a := PaddedIsFringe(xs);
      var b := PaddedIsFringe(ys);
      SameDepth(Shape(Leaves(xs)), a, Shape(Leaves(ys)), b);
    } else if xs != [] {
      PaddedNotEmpty(xs);
    } else if ys != [] {
      PaddedNotEmpty(ys);
    }
  }

  lemma SameDepth(t: Tree, a: nat, u: Tree, b: nat)
    requires Perfect(t, a) && Perfect(u, b)
    ensures t == u <==> Fringe(t) == Fringe(u)
  {
    PerfectSize(t, a);
    PerfectSize(u, b);
    if a < b {
      PowerGrows(a, b);
    } else if b < a {
      PowerGrows(b, a);
    } else if Fringe(t) == Fringe(u) {
      FringeDetermines(t, u, a);
    }
  }

  lemma PaddedNotEmpty(values: seq<seq<Byte>>)
    requires values != []
    ensures Padded(values) != []
  {
    var depth := PaddedIsFringe(values);
    PerfectSize(Shape(Leaves(values)), depth);
    PowerPositive(depth);
  }

  /** So, unless what is hashed collides, a root commits to the padded list. */
  lemma RootCommitsToPadded(h: Hash, xs: seq<seq<Byte>>, ys: seq<seq<Byte>>)
    requires !CollisionIn(h, HashedFor(h, xs), HashedFor(h, ys))
    ensures RootOf(h, xs) == RootOf(h, ys) <==> Padded(xs) == Padded(ys)
  {
    RootCommitsToTree(h, xs, ys);
    SameTreeIffPadded(xs, ys);
  }

  lemma {:induction false} PairUpOdd(ts: seq<Tree>)
    requires |ts| % 2 == 1
    ensures PairUp(ts) == PairUp(ts + [ts[|ts| - 1]])
  {
    if |ts| <= 1 {
    } else {
      PairUpOdd(ts[2..]);
      assert (ts + [ts[|ts| - 1]])[2..] == ts[2..] + [ts[2..][|ts[2..]| - 1]];
    }
  }

  /** The stored count is needed: an odd number of leaves, at least three, has the root of one leaf more. */
  lemma CountIsNeeded(h: Hash, xs: seq<seq<Byte>>)
    requires |xs| % 2 == 1 && |xs| > 1
    ensures RootOf(h, xs) == RootOf(h, xs + [xs[|xs| - 1]])
    ensures xs != xs + [xs[|xs| - 1]]
  {
    var ys := xs + [xs[|xs| - 1]];
    RootIsTreeHash(h, xs);
    RootIsTreeHash(h, ys);
    assert Leaves(ys) == Leaves(xs) + [Leaves(xs)[|xs| - 1]];
    PairUpOdd(Leaves(xs));
    assert |xs| != |ys|;
  }
}

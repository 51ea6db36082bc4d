/** The heap of chain heads: the sift-up and sift-down of the library, over the transaction order. */
module CandidateHeap {
  import opened Transactions

  datatype Candidate = Candidate(sender: string, index: nat, tx: Tx)

  predicate Ahead(a: Candidate, b: Candidate)
  {
    Before(a.tx, b.tx)
  }

  /** Position `c` is a child of position `p`. */
  predicate IsChild(p: int, c: int)
  {
    c == 2 * p + 1 || c == 2 * p + 2
  }

  /** No candidate is ahead of its parent. */
  ghost predicate IsHeap(h: seq<Candidate>)
  {
    forall p, c :: 0 <= p && IsChild(p, c) && c < |h| ==> !Ahead(h[c], h[p])
  }

  /** Like a heap, but `j` may be ahead of its parent. */
  ghost predicate HeapBut(h: seq<Candidate>, j: int)
  {
    && (forall p, c :: 0 <= p && IsChild(p, c) && c < |h| && c != j ==> !Ahead(h[c], h[p]))
    && (forall p, c :: 0 <= p && IsChild(p, j) && IsChild(j, c) && c < |h| ==> !Ahead(h[c], h[p]))
  }

  /** Like a heap of the first `n`, but children may be ahead of `i`. */
  ghost predicate HeapUnder(h: seq<Candidate>, n: nat, i: int)
    requires n <= |h|
  {
    && (forall p, c :: 0 <= p && IsChild(p, c) && c < n && p != i ==> !Ahead(h[c], h[p]))
    && (forall p, c :: 0 <= p && IsChild(p, i) && IsChild(i, c) && c < n ==> !Ahead(h[c], h[p]))
  }

  function Swap(h: seq<Candidate>, i: nat, j: nat): (r: seq<Candidate>)
    requires i < |h| && j < |h|
    ensures |r| == |h| && multiset(r) == multiset(h)
    ensures forall k :: 0 <= k < |h| ==> r[k] == if k == i then h[j] else if k == j then h[i] else h[k]
  {
    h[i := h[j]][j := h[i]]
  }

  lemma SwapUp(h: seq<Candidate>, p: nat, j: nat)
    requires IsChild(p, j) && j < |h| && HeapBut(h, j) && Ahead(h[j], h[p])
    ensures HeapBut(Swap(h, p, j), p)
  {
    BeforeIsStrictWeak();
    var g := Swap(h, p, j);
    forall q, c | 0 <= q && IsChild(q, c) && c < |g| && c != p
      ensures !Ahead(g[c], g[q])
    {
      if q == p && c != j {
        assert !Ahead(h[c], h[p]);
      } else if q == j {
        assert !Ahead(h[c], h[p]);
      }
    }
    forall q, c | 0 <= q && IsChild(q, p) && IsChild(p, c) && c < |g|
      ensures !Ahead(g[c], g[q])
    {
      assert !Ahead(h[p], h[q]);
      assert c != j ==> !Ahead(h[c], h[p]);
    }
  }

  method Up(h0: seq<Candidate>, start: nat) returns (h: seq<Candidate>)
    requires start < |h0| && HeapBut(h0, start)
    ensures IsHeap(h) && multiset(h) == multiset(h0)
  {
    h := h0;
    var j := start;
    while j > 0 && Ahead(h[j], h[(j - 1) / 2])
      invariant 0 <= j < |h| && |h| == |h0| && HeapBut(h, j) && multiset(h) == multiset(h0)
      decreases j
    {
      var p := (j - 1) / 2;
      assert IsChild(p, j);
      SwapUp(h, p, j);
      h := Swap(h, p, j);
      j := p;
    }
    TopOfPath(h, j);
  }

  lemma TopOfPath(h: seq<Candidate>, j: nat)
    requires j < |h| && HeapBut(h, j) && (j > 0 ==> !Ahead(h[j], h[(j - 1) / 2]))
    ensures IsHeap(h)
  {
  }

  lemma SwapDown(h: seq<Candidate>, n: nat, i: nat, j: nat)
    requires n <= |h| && HeapUnder(h, n, i) && IsChild(i, j) && j < n && Ahead(h[j], h[i])
    requires forall c :: IsChild(i, c) && c < n ==> !Ahead(h[c], h[j])
    ensures HeapUnder(Swap(h, i, j), n, j)
  {
    BeforeIsStrictWeak();
    var g := Swap(h, i, j);
    forall p, c | 0 <= p && IsChild(p, c) && c < n && p != j
      ensures !Ahead(g[c], g[p])
    {
      if c == i {
        assert !Ahead(h[j], h[p]);
      }
    }
    forall p, c | 0 <= p && IsChild(p, j) && IsChild(j, c) && c < n
      ensures !Ahead(g[c], g[p])
    {
      assert p == i;
      assert !Ahead(h[c], h[j]);
    }
  }

  /** One step of the descent: nothing left to do, or the smaller child to swap with. */
  method Descend(h: seq<Candidate>, n: nat, i: nat) returns (j: nat, done: bool)
    requires n <= |h| && i < n && HeapUnder(h, n, i)
    ensures done ==> IsHeap(h[..n])
    ensures !done ==> IsChild(i, j) && j < n && HeapUnder(Swap(h, i, j), n, j)
  {
    j := 2 * i + 1;
    done := true;
    BeforeIsStrictWeak();
    if j >= n {
      assert forall p, c :: 0 <= p && IsChild(p, c) && c < n ==> p != i;
      return;
    }
    if j + 1 < n && Ahead(h[j + 1], h[j]) {
      j := j + 1;
    }
    assert forall c :: IsChild(i, c) && c < n ==> !Ahead(h[c], h[j]);
    if !Ahead(h[j], h[i]) {
      assert forall c :: IsChild(i, c) && c < n ==> !Ahead(h[c], h[i]);
      return;
    }
    SwapDown(h, n, i, j);
    done := false;
  }

  method Down(h0: seq<Candidate>, start: nat, n: nat) returns (h: seq<Candidate>)
    requires start < n <= |h0| && HeapUnder(h0, n, start)
    ensures |h| == |h0| && h[n..] == h0[n..] && IsHeap(h[..n]) && multiset(h) == multiset(h0)
  {
    h := h0;
    var i := start;
    while true
      invariant i < n <= |h| && |h| == |h0| && h[n..] == h0[n..]
      invariant HeapUnder(h, n, i) && multiset(h) == multiset(h0)
      decreases n - i
    {
      var j, done := Descend(h, n, i);
      if done {
        return;
      }
      h := Swap(h, i, j);
      i := j;
    }
  }

  method Push(h0: seq<Candidate>, c: Candidate) returns (h: seq<Candidate>)
    requires IsHeap(h0)
    ensures IsHeap(h) && multiset(h) == multiset(h0) + multiset{c}
  {
    assert forall q :: !IsChild(|h0|, q) || q > |h0|;
    h := Up(h0 + [c], |h0|);
  }

  /** The root of a heap is ahead of nobody's back: no candidate is ahead of it. */
  lemma {:induction false} RootIsFirst(h: seq<Candidate>, i: nat)
    requires IsHeap(h) && i < |h|
    ensures !Ahead(h[i], h[0])
  {
    BeforeIsStrictWeak();
    if i == 0 {
    } else {
      var p := (i - 1) / 2;
      assert IsChild(p, i);
      RootIsFirst(h, p);
    }
  }

  method Pop(h0: seq<Candidate>) returns (h: seq<Candidate>, c: Candidate)
    requires IsHeap(h0) && |h0| > 0
    ensures IsHeap(h) && multiset(h0) == multiset(h) + multiset{c}
    ensures c in h0 && forall d :: d in h0 ==> !Ahead(d, c)
  {
    var g := RootToEnd(h0, |h0| - 1);
    h, c := g[..|g| - 1], g[|g| - 1];
    assert g == h + [c];
    NoneAheadOfRoot(h0);
  }

  /** Swaps the root with the last candidate and lets that sink. */
  method RootToEnd(h0: seq<Candidate>, n: nat) returns (g: seq<Candidate>)
    requires IsHeap(h0) && |h0| == n + 1
    ensures |g| == |h0| && multiset(g) == multiset(h0) && g[n] == h0[0] && IsHeap(g[..n])
  {
    g := Swap(h0, 0, n);
    if n > 0 {
      SwapRoot(h0, n);
      ghost var last := g[n..];
      g := Down(g, 0, n);
      assert g[n] == last[0];
    }
  }

  lemma SwapRoot(h: seq<Candidate>, n: nat)
    requires IsHeap(h) && |h| == n + 1 && n > 0
    ensures HeapUnder(Swap(h, 0, n), n, 0)
  {
  }

  lemma NoneAheadOfRoot(h: seq<Candidate>)
    requires IsHeap(h) && |h| > 0
    ensures forall d :: d in h ==> !Ahead(d, h[0])
  {
    forall d | d in h
      ensures !Ahead(d, h[0])
    {
      var i :| 0 <= i < |h| && h[i] == d;
      RootIsFirst(h, i);
    }
  }
}

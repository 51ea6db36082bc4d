/** String order and the sorting calls of the source, as functions with proved meaning. */
module Ordering {
  import opened Collections

  /** Go's `<` on strings: the first difference decides, and a proper prefix comes first. */
  predicate Less(a: string, b: string)
  {
    if b == "" then false
    else if a == "" then true
    else if a[0] != b[0] then a[0] < b[0]
    else Less(a[1..], b[1..])
  }

  /** The strings agree up to `k`, where the first ends or has the smaller character. */
  ghost predicate DecidedAt(a: string, b: string, k: int)
  {
    0 <= k < |b| && k <= |a| && a[..k] == b[..k] && (k == |a| || a[k] < b[k])
  }

  /** Before in the order of characters: a proper prefix, or smaller at the first difference. */
  lemma LessMeans(a: string, b: string)
    ensures Less(a, b) <==> exists k :: DecidedAt(a, b, k)
  {
    if Less(a, b) {
      var k := FirstDifference(a, b);
    }
    if k :| DecidedAt(a, b, k) {
      DecidedIsLess(a, b, k);
    }
  }

  lemma {:induction false} FirstDifference(a: string, b: string) returns (k: nat)
    requires Less(a, b)
    ensures DecidedAt(a, b, k)
  {
    if a == "" || a[0] != b[0] {
      k := 0;
    } else {
      k := FirstDifference(a[1..], b[1..]);
      assert a[..k + 1] == [a[0]] + a[1..][..k] && b[..k + 1] == [b[0]] + b[1..][..k];
      k := k + 1;
    }
  }

  lemma {:induction false} DecidedIsLess(a: string, b: string, k: nat)
    requires DecidedAt(a, b, k)
    ensures Less(a, b)
  {
    if k == 0 {
    } else {
      assert a[..k][0] == b[..k][0];
      assert a[1..][..k - 1] == a[..k][1..] && b[1..][..k - 1] == b[..k][1..];
      DecidedIsLess(a[1..], b[1..], k - 1);
    }
  }

  lemma {:induction false} LessTrichotomy(a: string, b: string)
    ensures Less(a, b) || a == b || Less(b, a)
    ensures !(Less(a, b) && Less(b, a)) && (a == b ==> !Less(a, b))
  {
    if a != "" && b != "" && a[0] == b[0] {
      LessTrichotomy(a[1..], b[1..]);
      assert a == [a[0]] + a[1..] && b == [b[0]] + b[1..];
    }
  }

  lemma {:induction false} LessTransitive(a: string, b: string, c: string)
    requires Less(a, b) && Less(b, c)
    ensures Less(a, c)
  {
    if a != "" && b != "" && c != "" && a[0] == b[0] == c[0] {
      LessTransitive(a[1..], b[1..], c[1..]);
    }
  }

  /** A strict weak order: what Go's sort functions ask of their comparison. */
  ghost predicate StrictWeak<T(!new)>(less: (T, T) -> bool)
  {
    && (forall x, y :: less(x, y) ==> !less(y, x))
    && (forall x, y, z :: less(x, z) ==> less(x, y) || less(y, z))
  }

  lemma LessIsStrictWeak()
    ensures StrictWeak(Less)
  {
    forall x, y
      ensures Less(x, y) ==> !Less(y, x)
    {
      LessTrichotomy(x, y);
    }
    forall x, y, z
      ensures Less(x, z) ==> Less(x, y) || Less(y, z)
    {
      LessTrichotomy(x, y);
      if Less(x, z) && Less(y, x) {
        LessTransitive(y, x, z);
      }
    }
  }

  /** No element is before an earlier one. */
  ghost predicate Sorted<T>(less: (T, T) -> bool, s: seq<T>)
  {
    forall i, j :: 0 <= i < j < |s| ==> !less(s[j], s[i])
  }

  ghost predicate StrictlySorted<T>(less: (T, T) -> bool, s: seq<T>)
  {
    forall i, j :: 0 <= i < j < |s| ==> less(s[i], s[j])
  }

  /** Puts `x` behind every element that is not after it. */
  function Insert<T>(less: (T, T) -> bool, s: seq<T>, x: T): (r: seq<T>)
    ensures |r| == |s| + 1 && multiset(r) == multiset(s) + multiset{x}
  {
    if s == [] then [x]
    else if less(x, s[|s| - 1]) then
      assert s == s[..|s| - 1] + [s[|s| - 1]];
      Insert(less, s[..|s| - 1], x) + [s[|s| - 1]]
    else s + [x]
  }

  /** A stable sort. */
  function Sort<T>(less: (T, T) -> bool, s: seq<T>): (r: seq<T>)
    ensures |r| == |s| && multiset(r) == multiset(s)
  {
    if s == [] then []
    else
      assert s == s[..|s| - 1] + [s[|s| - 1]];
      Insert(less, Sort(less, s[..|s| - 1]), s[|s| - 1])
  }

  lemma {:induction false} InsertSorted<T(!new)>(less: (T, T) -> bool, s: seq<T>, x: T)
    requires StrictWeak(less) && Sorted(less, s)
    ensures Sorted(less, Insert(less, s, x))
  {
    if s != [] && less(x, s[|s| - 1]) {
      var front, last := s[..|s| - 1], s[|s| - 1];
      InsertSorted(less, front, x);
      var r := Insert(less, front, x);
      forall i | 0 <= i < |r|
        ensures !less(last, r[i])
      {
        assert r[i] in multiset(r);
        assert r[i] == x || r[i] in multiset(front);
      }
    }
  }

  lemma {:induction false} SortSorted<T(!new)>(less: (T, T) -> bool, s: seq<T>)
    requires StrictWeak(less)
    ensures Sorted(less, Sort(less, s))
  {
    if s == [] {
    } else {
      SortSorted(less, s[..|s| - 1]);
      InsertSorted(less, Sort(less, s[..|s| - 1]), s[|s| - 1]);
    }
  }

  lemma PermutationFacts<T>(a: seq<T>, b: seq<T>)
    requires multiset(a) == multiset(b)
    ensures |a| == |b| && Members(a) == Members(b)
    ensures Distinct(a) ==> Distinct(b)
  {
    assert |multiset(a)| == |a| && |multiset(b)| == |b|;
    forall x
      ensures x in a <==> x in b
    {
      assert x in a <==> x in multiset(a);
      assert x in b <==> x in multiset(b);
    }
    if Distinct(a) {
      DistinctByCount(a);
      DistinctByCount(b);
    }
  }

  /** A sequence repeats nothing exactly when no count exceeds one. */
  lemma {:induction false} DistinctByCount<T>(s: seq<T>)
    ensures Distinct(s) <==> forall x :: multiset(s)[x] <= 1
  {
    if s == [] {
    } else {
      var rest := s[1..];
      assert s == [s[0]] + rest;
      DistinctByCount(rest);
      if Distinct(s) {
        assert s[0] !in rest;
        assert Distinct(rest);
        forall x ensures multiset(s)[x] <= 1 {
          assert multiset(s)[x] == multiset(rest)[x] + (if x == s[0] then 1 else 0);
          assert s[0] !in multiset(rest);
        }
      }
      if forall x :: multiset(s)[x] <= 1 {
        forall x ensures multiset(rest)[x] <= 1 {
          assert multiset(s)[x] >= multiset(rest)[x];
        }
        assert multiset(s)[s[0]] == multiset(rest)[s[0]] + 1;
        assert s[0] !in rest;
      }
    }
  }

  lemma StrictlySortedDistinct(s: seq<string>)
    requires StrictlySorted(Less, s)
    ensures Distinct(s)
  {
    forall i, j | 0 <= i < j < |s|
      ensures s[i] != s[j]
    {
      LessTrichotomy(s[i], s[j]);
    }
  }

  /** Sorting distinct strings: strictly increasing, with the same members. */
  lemma SortStrings(s: seq<string>)
    ensures Sorted(Less, Sort(Less, s)) && Members(Sort(Less, s)) == Members(s) && |Sort(Less, s)| == |s|
    ensures Distinct(s) ==> StrictlySorted(Less, Sort(Less, s)) && Distinct(Sort(Less, s))
  {
    var r := Sort(Less, s);
    LessIsStrictWeak();
    SortSorted(Less, s);
    PermutationFacts(s, r);
    if Distinct(s) {
      forall i, j | 0 <= i < j < |r|
        ensures Less(r[i], r[j])
      {
        LessTrichotomy(r[i], r[j]);
      }
    }
  }

  /** A strictly increasing sequence is determined by its members. */
  lemma {:induction false} StrictlySortedUnique<T(!new)>(less: (T, T) -> bool, s: seq<T>, t: seq<T>)
    requires forall x, y :: less(x, y) ==> !less(y, x)
    requires StrictlySorted(less, s) && StrictlySorted(less, t)
    requires forall x :: x in s <==> x in t
    ensures s == t
  {
    assert forall i :: 0 <= i < |s| ==> s[i] in t;
    assert forall i :: 0 <= i < |t| ==> t[i] in s;
    if s != [] && t != [] {
      assert s[0] in t && t[0] in s;
      assert s[0] == t[0];
      forall x
        ensures x in s[1..] <==> x in t[1..]
      {
        assert x in s[1..] <==> x in s && x != s[0] by { assert s == [s[0]] + s[1..]; }
        assert x in t[1..] <==> x in t && x != t[0] by { assert t == [t[0]] + t[1..]; }
      }
      StrictlySortedUnique(less, s[1..], t[1..]);
      assert s == [s[0]] + s[1..] && t == [t[0]] + t[1..];
    }
  }
}

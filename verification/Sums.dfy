/** Finite sums over sets, the arithmetic that flow conservation is stated in. */
module Sums {

  /** The sum of `f` over `s`. */
  ghost function Sum<T(!new)>(f: T -> int, s: set<T>): int
  {
    if s == {} then 0 else
      var x :| x in s;
      f(x) + Sum(f, s - {x})
  }

  /** Any element may be the one taken out first. */
  lemma {:induction false} SumRemove<T(!new)>(f: T -> int, s: set<T>, x: T)
    requires x in s
    ensures Sum(f, s) == f(x) + Sum(f, s - {x})
    decreases s
  {
    var y :| y in s && Sum(f, s) == f(y) + Sum(f, s - {y});
    if y != x {
      SumRemove(f, s - {y}, x);
      SumRemove(f, s - {x}, y);
      assert s - {y} - {x} == s - {x} - {y};
    }
  }

  /** Only the values on `s` matter. */
  lemma {:induction false} SumSame<T(!new)>(f: T -> int, g: T -> int, s: set<T>)
    requires forall x :: x in s ==> f(x) == g(x)
    ensures Sum(f, s) == Sum(g, s)
    decreases s
  {
    if s == {} {
    } else {
      var x :| x in s;
      SumRemove(f, s, x);
      SumRemove(g, s, x);
      SumSame(f, g, s - {x});
    }
  }

  /** A change of one value changes the sum by as much. */
  lemma SumUpdate<T(!new)>(f: T -> int, g: T -> int, s: set<T>, x: T)
    requires x in s
    requires forall y :: y in s && y != x ==> f(y) == g(y)
    ensures Sum(g, s) == Sum(f, s) + g(x) - f(x)
  {
    SumRemove(f, s, x);
    SumRemove(g, s, x);
    SumSame(f, g, s - {x});
  }

  lemma {:induction false} SumAdd<T(!new)>(f: T -> int, g: T -> int, h: T -> int, s: set<T>)
    requires forall x :: x in s ==> h(x) == f(x) + g(x)
    ensures Sum(h, s) == Sum(f, s) + Sum(g, s)
    decreases s
  {
    if s == {} {
    } else {
      var x :| x in s;
      SumRemove(f, s, x);
      SumRemove(g, s, x);
      SumRemove(h, s, x);
      SumAdd(f, g, h, s - {x});
    }
  }

  lemma {:induction false} SumUnion<T(!new)>(f: T -> int, a: set<T>, b: set<T>)
    requires a !! b
    ensures Sum(f, a + b) == Sum(f, a) + Sum(f, b)
    decreases a
  {
    if a == {} {
      assert a + b == b;
    } else {
      var x :| x in a;
      SumRemove(f, a, x);
      SumRemove(f, a + b, x);
      assert a + b - {x} == (a - {x}) + b;
      SumUnion(f, a - {x}, b);
    }
  }

  lemma {:induction false} SumLe<T(!new)>(f: T -> int, g: T -> int, s: set<T>)
    requires forall x :: x in s ==> f(x) <= g(x)
    ensures Sum(f, s) <= Sum(g, s)
    decreases s
  {
    if s == {} {
    } else {
      var x :| x in s;
      SumRemove(f, s, x);
      SumRemove(g, s, x);
      SumLe(f, g, s - {x});
    }
  }

  /** Pointwise bounded functions with equal sums are equal everywhere. */
  lemma SumLeEqual<T(!new)>(f: T -> int, g: T -> int, s: set<T>, x: T)
    requires forall y :: y in s ==> f(y) <= g(y)
    requires Sum(f, s) == Sum(g, s)
    requires x in s
    ensures f(x) == g(x)
  {
    SumRemove(f, s, x);
    SumRemove(g, s, x);
    SumLe(f, g, s - {x});
  }

  /** The values `f` takes beside `x`. */
  ghost function Row<T(!new)>(f: (T, T) -> int, x: T): T -> int
  {
    y => f(x, y)
  }

  ghost function RowSums<T(!new)>(f: (T, T) -> int, b: set<T>): T -> int
  {
    x => Sum(Row(f, x), b)
  }

  /** The sum of `f` over the pairs of `a` and `b`. */
  ghost function Cross<T(!new)>(f: (T, T) -> int, a: set<T>, b: set<T>): int
  {
    Sum(RowSums(f, b), a)
  }

  lemma CrossRemove<T(!new)>(f: (T, T) -> int, a: set<T>, b: set<T>, x: T)
    requires x in a
    ensures Cross(f, a, b) == Sum(Row(f, x), b) + Cross(f, a - {x}, b)
  {
    SumRemove(RowSums(f, b), a, x);
  }

  lemma CrossSplitRight<T(!new)>(f: (T, T) -> int, a: set<T>, b: set<T>, c: set<T>)
    requires b !! c
    ensures Cross(f, a, b + c) == Cross(f, a, b) + Cross(f, a, c)
  {
    forall x | x in a
      ensures Sum(Row(f, x), b + c) == Sum(Row(f, x), b) + Sum(Row(f, x), c)
    {
      SumUnion(Row(f, x), b, c);
    }
    SumAdd(RowSums(f, b), RowSums(f, c), RowSums(f, b + c), a);
  }

  lemma CrossLe<T(!new)>(f: (T, T) -> int, g: (T, T) -> int, a: set<T>, b: set<T>)
    requires forall u, v :: u in a && v in b ==> f(u, v) <= g(u, v)
    ensures Cross(f, a, b) <= Cross(g, a, b)
  {
    forall u | u in a
      ensures RowSums(f, b)(u) <= RowSums(g, b)(u)
    {
      SumLe(Row(f, u), Row(g, u), b);
    }
    SumLe(RowSums(f, b), RowSums(g, b), a);
  }

  lemma CrossLeEqual<T(!new)>(f: (T, T) -> int, g: (T, T) -> int, a: set<T>, b: set<T>, x: T, y: T)
    requires forall u, v :: u in a && v in b ==> f(u, v) <= g(u, v)
    requires Cross(f, a, b) == Cross(g, a, b)
    requires x in a && y in b
    ensures f(x, y) == g(x, y)
  {
    forall u | u in a
      ensures RowSums(f, b)(u) <= RowSums(g, b)(u)
    {
      SumLe(Row(f, u), Row(g, u), b);
    }
    SumLeEqual(RowSums(f, b), RowSums(g, b), a, x);
    SumLeEqual(Row(f, x), Row(g, x), b, y);
  }

  /** A skew-symmetric function sums to nothing within a set. */
  lemma {:induction false} CrossSkew<T(!new)>(f: (T, T) -> int, a: set<T>)
    requires forall x, y :: f(x, y) == -f(y, x)
    ensures Cross(f, a, a) == 0
    decreases a
  {
    if a == {} {
    } else {
      var x :| x in a;
      var b := a - {x};
      assert a == b + {x};
      CrossSkew(f, b);
      CrossSplitRight(f, a, b, {x});
      CrossRemove(f, a, b, x);
      CrossRemove(f, a, {x}, x);
      CrossColumn(f, b, x);
      SumRemove(Row(f, x), {x}, x);
      assert f(x, x) == 0;
      assert {x} - {x} == {};
    }
  }

  /** What `b` sends to `x` is what `x` sends to `b`, negated. */
  lemma {:induction false} CrossColumn<T(!new)>(f: (T, T) -> int, b: set<T>, x: T)
    requires forall u, v :: f(u, v) == -f(v, u)
    ensures Cross(f, b, {x}) == -Sum(Row(f, x), b)
    decreases b
  {
    if b == {} {
    } else {
      var u :| u in b;
      CrossRemove(f, b, {x}, u);
      SumRemove(Row(f, x), b, u);
      CrossColumn(f, b - {u}, x);
      SumRemove(Row(f, u), {x}, x);
      assert {x} - {x} == {};
    }
  }
}

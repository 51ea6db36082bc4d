/** Lists of outstanding work: values queued under ids and acknowledged later, as a journal tells of them. */
module Worklists {
  import opened Options
  import opened Projections

  /** What one record does to a list. */
  datatype Change<V> = Queued(values: seq<V>) | Acked(id: string) | Neither

  function Apply<V>(m: Entries<V>, key: V -> string, c: Change<V>): Entries<V>
  {
    match c
    case Queued(values) => PutAll(m, key, values)
    case Acked(id) => Remove(m, id)
    case Neither => m
  }

  /** What is outstanding after the changes. */
  function Outstanding<V>(changes: seq<Change<V>>, key: V -> string): Entries<V>
  {
    if changes == [] then []
    else Apply(Outstanding(changes[..|changes| - 1], key), key, changes[|changes| - 1])
  }

  ghost predicate Queues<V>(c: Change<V>, key: V -> string, id: string)
  {
    c.Queued? && exists a :: 0 <= a < |c.values| && key(c.values[a]) == id
  }

  // ----- maps with many values put at once

  lemma {:induction false} PutAllKeys<V>(m: Entries<V>, key: V -> string, values: seq<V>, x: string)
    requires KeysDistinct(m)
    ensures KeysDistinct(PutAll(m, key, values))
    ensures HasKey(PutAll(m, key, values), x) <==> HasKey(m, x) || exists a :: 0 <= a < |values| && key(values[a]) == x
  {
    if values == [] {
    } else {
      var front, last := values[..|values| - 1], values[|values| - 1];
      PutAllKeys(m, key, front, x);
      PutKeys(PutAll(m, key, front), key(last), last);
      if a :| 0 <= a < |values| && key(values[a]) == x {
        assert a < |front| ==> front[a] == values[a];
      }
      if a :| 0 <= a < |front| && key(front[a]) == x {
        assert values[a] == front[a];
      }
    }
  }

  lemma {:induction false} GetPutOthers<V>(m: Entries<V>, key: V -> string, values: seq<V>, x: string)
    requires forall b :: 0 <= b < |values| ==> key(values[b]) != x
    ensures Get(PutAll(m, key, values), x) == Get(m, x)
  {
    if values == [] {
    } else {
      var n := |values| - 1;
      GetPutOthers(m, key, values[..n], x);
      GetPut(PutAll(m, key, values[..n]), key(values[n]), values[n], x);
    }
  }

  lemma {:induction false} GetPutLast<V>(m: Entries<V>, key: V -> string, values: seq<V>, a: nat)
    requires a < |values| && forall b :: a < b < |values| ==> key(values[b]) != key(values[a])
    ensures Get(PutAll(m, key, values), key(values[a])) == Some(values[a])
  {
    var n := |values| - 1;
    GetPut(PutAll(m, key, values[..n]), key(values[n]), values[n], key(values[a]));
    if a == n {
    } else {
      GetPutLast(m, key, values[..n], a);
    }
  }

  // ----- what is outstanding

  lemma {:induction false} OutstandingDistinct<V>(changes: seq<Change<V>>, key: V -> string)
    ensures KeysDistinct(Outstanding(changes, key))
  {
    if changes == [] {
    } else {
      var before := Outstanding(changes[..|changes| - 1], key);
      OutstandingDistinct(changes[..|changes| - 1], key);
      match changes[|changes| - 1]
      case Queued(values) => PutAllKeys(before, key, values, "");
      case Acked(id) => RemoveKeys(before, id);
      case Neither =>
    }
  }

  lemma OutstandingStep<V>(changes: seq<Change<V>>, key: V -> string, c: Change<V>, id: string)
    ensures HasKey(Outstanding(changes + [c], key), id) <==>
            Queues(c, key, id) || (HasKey(Outstanding(changes, key), id) && c != Acked(id))
  {
    assert (changes + [c])[..|changes|] == changes;
    OutstandingDistinct(changes, key);
    match c
    case Queued(values) => PutAllKeys(Outstanding(changes, key), key, values, id);
    case Acked(x) => RemoveKeys(Outstanding(changes, key), x);
    case Neither =>
  }

  /** Change `i` queued the id and nothing acknowledged it since. */
  ghost predicate OpenSince<V>(changes: seq<Change<V>>, key: V -> string, i: int, id: string)
  {
    && 0 <= i < |changes| && Queues(changes[i], key, id)
    && forall m :: i < m < |changes| ==> changes[m] != Acked(id)
  }

  lemma OpenSinceStep<V>(front: seq<Change<V>>, key: V -> string, c: Change<V>, i: int, id: string)
    ensures OpenSince(front + [c], key, i, id) <==>
            (OpenSince(front, key, i, id) && c != Acked(id)) || (i == |front| && Queues(c, key, id))
  {
    var changes := front + [c];
    assert changes[|front|] == c;
    assert forall m :: 0 <= m < |front| ==> changes[m] == front[m];
    if 0 <= i < |front| && OpenSince(changes, key, i, id) {
      assert forall m :: i < m < |front| ==> front[m] == changes[m];
    }
  }

  /** An id is outstanding exactly when it was queued and not acknowledged since. */
  lemma {:induction false} OutstandingIff<V>(changes: seq<Change<V>>, key: V -> string, id: string)
    ensures HasKey(Outstanding(changes, key), id) <==> exists i :: OpenSince(changes, key, i, id)
  {
    if changes == [] {
    } else {
      var n := |changes| - 1;
      var front, c := changes[..n], changes[n];
      assert changes == front + [c];
      OutstandingIff(front, key, id);
      OutstandingStep(front, key, c, id);
      if i :| OpenSince(front, key, i, id) {
        OpenSinceStep(front, key, c, i, id);
      }
      if i :| OpenSince(changes, key, i, id) {
        OpenSinceStep(front, key, c, i, id);
      }
      OpenSinceStep(front, key, c, n, id);
    }
  }

  /** Nothing is lost: a queued id is outstanding, or was acknowledged later. */
  lemma NothingLost<V>(changes: seq<Change<V>>, key: V -> string, i: nat, id: string)
    requires i < |changes| && Queues(changes[i], key, id)
    ensures HasKey(Outstanding(changes, key), id) || exists m :: i < m < |changes| && changes[m] == Acked(id)
  {
    OutstandingIff(changes, key, id);
    if forall m :: i < m < |changes| ==> changes[m] != Acked(id) {
      assert OpenSince(changes, key, i, id);
    }
  }

  ghost predicate DistinctKeys<V>(values: seq<V>, key: V -> string)
  {
    forall a, b :: 0 <= a < b < |values| ==> key(values[a]) != key(values[b])
  }

  /** Nothing after change `i` concerns the id. */
  ghost predicate Untouched<V>(changes: seq<Change<V>>, key: V -> string, i: nat, id: string)
  {
    forall k :: i < k < |changes| ==> changes[k] != Acked(id) && !Queues(changes[k], key, id)
  }

  /** A value whose id is not touched again stays outstanding as it was queued. */
  lemma {:induction false} StaysIntact<V>(changes: seq<Change<V>>, key: V -> string, i: nat, a: nat)
    requires i < |changes| && changes[i].Queued? && a < |changes[i].values| && DistinctKeys(changes[i].values, key)
    requires Untouched(changes, key, i, key(changes[i].values[a]))
    ensures Get(Outstanding(changes, key), key(changes[i].values[a])) == Some(changes[i].values[a])
    decreases |changes|
  {
    var n := |changes| - 1;
    var front, c, value := changes[..n], changes[n], changes[i].values[a];
    var before := Outstanding(front, key);
    if i == n {
      GetPutLast(before, key, c.values, a);
    } else {
      StaysIntact(front, key, i, a);
      match c
      case Queued(values) =>
        assert !Queues(c, key, key(value));
        GetPutOthers(before, key, values, key(value));
      case Acked(id) => GetRemove(before, id, key(value));
      case Neither =>
    }
  }
}

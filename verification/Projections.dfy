/**
 * The journal of a workflow and its two projections: a full replay, and a stored projection updated record by record.
 */
module Projections {
  import opened Options
  import opened Guard

  // ----- insertion-ordered maps

  /** A JavaScript Map: entries in insertion order, one per key. */
  type Entries<V> = seq<(string, V)>

  ghost predicate KeysDistinct<V>(m: Entries<V>)
  {
    forall i, j :: 0 <= i < j < |m| ==> m[i].0 != m[j].0
  }

  predicate HasKey<V>(m: Entries<V>, k: string)
  {
    exists i :: 0 <= i < |m| && m[i].0 == k
  }

  /** Replaces the value of a present key where it stands; a new key goes last. */
  function Put<V>(m: Entries<V>, k: string, v: V): (r: Entries<V>)
  {
    if m == [] then [(k, v)]
    else if m[0].0 == k then [(k, v)] + m[1..]
    else [m[0]] + Put(m[1..], k, v)
  }

  function Remove<V>(m: Entries<V>, k: string): Entries<V>
  {
    if m == [] then []
    else if m[0].0 == k then m[1..]
    else [m[0]] + Remove(m[1..], k)
  }

  function Get<V>(m: Entries<V>, k: string): Option<V>
  {
    if m == [] then None else if m[0].0 == k then Some(m[0].1) else Get(m[1..], k)
  }

  lemma {:induction false} PutKeys<V>(m: Entries<V>, k: string, v: V)
    requires KeysDistinct(m)
    ensures KeysDistinct(Put(m, k, v))
    ensures forall x :: HasKey(Put(m, k, v), x) <==> x == k || HasKey(m, x)
  {
    var r := Put(m, k, v);
    if m == [] {
      assert r[0].0 == k;
    } else if m[0].0 == k {
      assert forall i :: 0 < i < |m| ==> r[i] == m[i];
      assert r[0].0 == k;
    } else {
      var rest := Put(m[1..], k, v);
      PutKeys(m[1..], k, v);
      HasKeyStep(m);
      HasKeyStep(r);
      assert r[1..] == rest;
      forall i | 0 <= i < |rest|
        ensures rest[i].0 != m[0].0
      {
        assert HasKey(rest, rest[i].0);
        assert HasKey(m[1..], rest[i].0) ==> exists j :: 0 <= j < |m[1..]| && m[1..][j].0 == rest[i].0;
      }
    }
  }

  lemma HasKeyStep<V>(m: Entries<V>)
    requires m != []
    ensures forall x :: HasKey(m, x) <==> m[0].0 == x || HasKey(m[1..], x)
  {
    forall x
      ensures HasKey(m, x) <==> m[0].0 == x || HasKey(m[1..], x)
    {
      if HasKey(m, x) && m[0].0 != x {
        var i :| 0 <= i < |m| && m[i].0 == x;
        assert m[1..][i - 1].0 == x;
      }
      if HasKey(m[1..], x) {
        var i :| 0 <= i < |m[1..]| && m[1..][i].0 == x;
        assert m[i + 1].0 == x;
      }
    }
  }

  lemma {:induction false} RemoveKeys<V>(m: Entries<V>, k: string)
    requires KeysDistinct(m)
    ensures KeysDistinct(Remove(m, k))
    ensures forall x :: HasKey(Remove(m, k), x) <==> x != k && HasKey(m, x)
  {
    if m == [] {
    } else {
      HasKeyStep(m);
      var r := Remove(m, k);
      if m[0].0 == k {
        assert forall i :: 0 <= i < |m[1..]| ==> m[1..][i] == m[i + 1];
      } else {
        RemoveKeys(m[1..], k);
        HasKeyStep(r);
        assert r[1..] == Remove(m[1..], k);
        forall i | 0 <= i < |r[1..]|
          ensures r[1..][i].0 != m[0].0
        {
          assert HasKey(r[1..], r[1..][i].0);
        }
      }
    }
  }

  lemma {:induction false} GetPut<V>(m: Entries<V>, k: string, v: V, x: string)
    ensures Get(Put(m, k, v), x) == if x == k then Some(v) else Get(m, x)
  {
    if m != [] && m[0].0 != k {
      GetPut(m[1..], k, v, x);
      assert Put(m, k, v)[1..] == Put(m[1..], k, v);
    }
  }

  lemma {:induction false} GetRemove<V>(m: Entries<V>, k: string, x: string)
    requires x != k
    ensures Get(Remove(m, k), x) == Get(m, x)
  {
    if m != [] && m[0].0 != k {
      GetRemove(m[1..], k, x);
      assert Remove(m, k)[1..] == Remove(m[1..], k);
    }
  }

  lemma {:induction false} PutNew<V>(m: Entries<V>, k: string, v: V)
    requires !HasKey(m, k)
    ensures Put(m, k, v) == m + [(k, v)]
  {
    if m == [] {
    } else {
      HasKeyStep(m);
      PutNew(m[1..], k, v);
      assert m == [m[0]] + m[1..];
    }
  }

  /** A present key keeps its place; a removed one leaves the order of the others. */
  lemma {:induction false} InPlace<V>(m: Entries<V>, k: string, v: V, i: nat)
    requires KeysDistinct(m) && i < |m| && m[i].0 == k
    ensures Put(m, k, v) == m[i := (k, v)]
    ensures Remove(m, k) == m[..i] + m[i + 1..]
  {
    if i == 0 {
      assert m[0 := (k, v)] == [(k, v)] + m[1..];
    } else {
      assert m[0].0 != k;
      var rest := m[1..];
      InPlace(rest, k, v, i - 1);
      assert m[i := (k, v)] == [m[0]] + rest[i - 1 := (k, v)];
      assert m[..i] + m[i + 1..] == [m[0]] + (rest[..i - 1] + rest[i..]);
    }
  }

  // ----- what the journal talks about

  datatype Status = Running | Paused | Quarantined | Failed

  datatype Instance = Instance(
    specId: string, specVersion: real, state: string, context: Json, version: int, status: Status)

  datatype Effect = Effect(effectId: string, kind: string, params: Json, commitId: string, recordedAt: int)

  datatype Task = Task(
    taskId: string, commitId: string, sourceEventId: string, dueAt: int, kind: string, payload: Json)

  datatype Reason =
    | SpecMismatch
    | PayloadTooLarge
    | Quota(text: string)
    | InstanceNotRunnable
    | NoTransition
    | GuardFailed
    | InvalidInput
    | ContextTooLarge
    | StoreAppendFailed

  datatype Record =
    | Commit(commitId: string, eventId: string, recordedAt: int, nextInstance: Instance, effects: seq<Effect>,
             tasks: seq<Task>)
    | Rejection(eventId: string, recordedAt: int, reason: Reason, nextInstance: Instance)
    | EffectAcked(effectId: string)
    | TaskAcked(taskId: string)

  datatype Projection = Projection(
    instance: Option<Instance>, seen: Entries<int>, pendingEffects: seq<Effect>, pendingTasks: seq<Task>)

  /** The maps a projection is computed with. */
  datatype Maps = Maps(instance: Option<Instance>, seen: Entries<int>, effects: Entries<Effect>, tasks: Entries<Task>)

  const EMPTY_MAPS: Maps := Maps(None, [], [], [])

  function EffectKey(e: Effect): string { e.effectId }

  function TaskKey(t: Task): string { t.taskId }

  /** Puts the values in turn, each under its own id. */
  function PutAll<V>(m: Entries<V>, key: V -> string, values: seq<V>): Entries<V>
  {
    if values == [] then m
    else
      var last := values[|values| - 1];
      Put(PutAll(m, key, values[..|values| - 1]), key(last), last)
  }

  function Update(m: Maps, rec: Record): Maps
  {
    match rec
    case Commit(commitId, eventId, at, next, effects, tasks) =>
      Maps(Some(next), Put(m.seen, eventId, at), PutAll(m.effects, EffectKey, effects), PutAll(m.tasks, TaskKey, tasks))
    case Rejection(eventId, at, reason, next) =>
      m.(instance := Some(next), seen := Put(m.seen, eventId, at))
    case EffectAcked(id) => m.(effects := Remove(m.effects, id))
    case TaskAcked(id) => m.(tasks := Remove(m.tasks, id))
  }

  function Replayed(journal: seq<Record>): Maps
  {
    if journal == [] then EMPTY_MAPS
    else Update(Replayed(journal[..|journal| - 1]), journal[|journal| - 1])
  }

  function Values<V>(m: Entries<V>): (r: seq<V>)
    ensures |r| == |m| && forall i :: 0 <= i < |m| ==> r[i] == m[i].1
  {
    if m == [] then [] else [m[0].1] + Values(m[1..])
  }

  function ToProjection(m: Maps): Projection
  {
    Projection(m.instance, m.seen, Values(m.effects), Values(m.tasks))
  }

  method SetAll<V>(m0: Entries<V>, key: V -> string, values: seq<V>) returns (m: Entries<V>)
    ensures m == PutAll(m0, key, values)
  {
    m := m0;
    for i := 0 to |values|
      invariant m == PutAll(m0, key, values[..i])
    {
      assert values[..i + 1][..i] == values[..i];
      m := Put(m, key(values[i]), values[i]);
    }
    assert values[..|values|] == values;
  }

  /** The full replay of a journal file. */
  method ReplayJournal(journal: seq<Record>) returns (p: Projection)
    ensures p == ToProjection(Replayed(journal))
  {
    var instance: Option<Instance> := None;
    var seen: Entries<int>, effects: Entries<Effect>, tasks: Entries<Task> := [], [], [];
    for i := 0 to |journal|
      invariant Maps(instance, seen, effects, tasks) == Replayed(journal[..i])
    {
      assert journal[..i + 1][..i] == journal[..i];
      match journal[i] {
        case Commit(commitId, eventId, at, next, effs, ts) =>
          instance := Some(next);
          seen := Put(seen, eventId, at);
          effects := SetAll(effects, EffectKey, effs);
          tasks := SetAll(tasks, TaskKey, ts);
        case Rejection(eventId, at, reason, next) =>
          instance := Some(next);
          seen := Put(seen, eventId, at);
        case EffectAcked(id) =>
          effects := Remove(effects, id);
        case TaskAcked(id) =>
          tasks := Remove(tasks, id);
      }
    }
    assert journal[..|journal|] == journal;
    p := Projection(instance, seen, Values(effects), Values(tasks));
  }

  // ----- the stored projection

  /** The row in the state table: the maps as arrays. */
  datatype Stored = Stored(instance: Option<Instance>, seen: seq<(string, int)>, pendingEffects: seq<Effect>,
                           pendingTasks: seq<Task>)

  function ToJson(p: Projection): Stored
  {
    Stored(p.instance, p.seen, p.pendingEffects, p.pendingTasks)
  }

  /** A Map built from an array of entries: each is put in turn. */
  function FromEntries<V>(entries: seq<(string, V)>): Entries<V>
  {
    if entries == [] then []
    else Put(FromEntries(entries[..|entries| - 1]), entries[|entries| - 1].0, entries[|entries| - 1].1)
  }

  function FromJson(s: Stored): Projection
  {
    Projection(s.instance, FromEntries(s.seen), s.pendingEffects, s.pendingTasks)
  }

  lemma {:induction false} FromEntriesOfMap<V>(m: Entries<V>)
    requires KeysDistinct(m)
    ensures FromEntries(m) == m
  {
    if m == [] {
    } else {
      var front, last := m[..|m| - 1], m[|m| - 1];
      FromEntriesOfMap(front);
      assert m == front + [last];
      PutNew(front, last.0, last.1);
    }
  }

  /** One record applied to the stored projection: maps are rebuilt from the arrays, changed, and flattened again. */
  method ApplyRecordToProjection(current: Option<Projection>, rec: Record) returns (p: Projection)
    ensures var base := if current.Some? then current.value else Projection(None, [], [], []);
            p == ToProjection(Update(
                   Maps(base.instance, base.seen, PutAll([], EffectKey, base.pendingEffects),
                        PutAll([], TaskKey, base.pendingTasks)), rec))
  {
    var base := if current.Some? then current.value else Projection(None, [], [], []);
    var seen := base.seen;
    var effects := SetAll([], EffectKey, base.pendingEffects);
    var tasks := SetAll([], TaskKey, base.pendingTasks);
    var instance := base.instance;
    if rec.Commit? {
      instance := Some(rec.nextInstance);
      seen := Put(seen, rec.eventId, rec.recordedAt);
      effects := SetAll(effects, EffectKey, rec.effects);
      tasks := SetAll(tasks, TaskKey, rec.tasks);
    } else if rec.Rejection? {
      instance := Some(rec.nextInstance);
      seen := Put(seen, rec.eventId, rec.recordedAt);
    } else if rec.EffectAcked? {
      effects := Remove(effects, rec.effectId);
    } else {
      tasks := Remove(tasks, rec.taskId);
    }
    p := Projection(instance, seen, Values(effects), Values(tasks));
  }

  // ----- both agree

  /** Keys are distinct and every value sits under its own id. */
  ghost predicate MapsOk(m: Maps)
  {
    KeysDistinct(m.seen) && Labelled(m.effects, EffectKey) && Labelled(m.tasks, TaskKey)
  }

  ghost predicate Labelled<V(!new)>(m: Entries<V>, key: V -> string)
  {
    KeysDistinct(m) && forall i :: 0 <= i < |m| ==> m[i].0 == key(m[i].1)
  }

  lemma {:induction false} PutLabelled<V(!new)>(m: Entries<V>, key: V -> string, v: V)
    requires Labelled(m, key)
    ensures Labelled(Put(m, key(v), v), key)
  {
    PutKeys(m, key(v), v);
    if m != [] && m[0].0 != key(v) {
      PutLabelled(m[1..], key, v);
    }
  }

  lemma {:induction false} RemoveLabelled<V(!new)>(m: Entries<V>, key: V -> string, k: string)
    requires Labelled(m, key)
    ensures Labelled(Remove(m, k), key)
  {
    RemoveKeys(m, k);
    if m != [] && m[0].0 != k {
      RemoveLabelled(m[1..], key, k);
    }
  }

  lemma {:induction false} PutAllLabelled<V(!new)>(m: Entries<V>, key: V -> string, values: seq<V>)
    requires Labelled(m, key)
    ensures Labelled(PutAll(m, key, values), key)
  {
    if values == [] {
    } else {
      PutAllLabelled(m, key, values[..|values| - 1]);
      PutLabelled(PutAll(m, key, values[..|values| - 1]), key, values[|values| - 1]);
    }
  }

  lemma UpdateKeepsOk(m: Maps, rec: Record)
    requires MapsOk(m)
    ensures MapsOk(Update(m, rec))
  {
    match rec
    case Commit(commitId, eventId, at, next, effects, tasks) =>
      PutKeys(m.seen, eventId, at);
      PutAllLabelled(m.effects, EffectKey, effects);
      PutAllLabelled(m.tasks, TaskKey, tasks);
    case Rejection(eventId, at, reason, next) => PutKeys(m.seen, eventId, at);
    case EffectAcked(id) => RemoveLabelled(m.effects, EffectKey, id);
    case TaskAcked(id) => RemoveLabelled(m.tasks, TaskKey, id);
  }

  lemma {:induction false} ReplayedOk(journal: seq<Record>)
    ensures MapsOk(Replayed(journal))
  {
    if journal == [] {
    } else {
      ReplayedOk(journal[..|journal| - 1]);
      UpdateKeepsOk(Replayed(journal[..|journal| - 1]), journal[|journal| - 1]);
    }
  }

  /** Rebuilding a map from its values, in order, gives the same map. */
  lemma {:induction false} EntriesOfValues<V(!new)>(m: Entries<V>, key: V -> string)
    requires Labelled(m, key)
    ensures PutAll([], key, Values(m)) == m
  {
    if m == [] {
    } else {
      LabelledFront(m, key);
      EntriesOfValues(m[..|m| - 1], key);
      ValuesFront(m);
      RebuildLast(m, key, Values(m));
    }
  }

  lemma LabelledFront<V(!new)>(m: Entries<V>, key: V -> string)
    requires Labelled(m, key) && m != []
    ensures Labelled(m[..|m| - 1], key) && !HasKey(m[..|m| - 1], m[|m| - 1].0) && m[|m| - 1].0 == key(m[|m| - 1].1)
  {
    var front := m[..|m| - 1];
    assert forall i :: 0 <= i < |front| ==> front[i] == m[i];
  }

  lemma RebuildLast<V(!new)>(m: Entries<V>, key: V -> string, values: seq<V>)
    requires m != [] && !HasKey(m[..|m| - 1], m[|m| - 1].0) && m[|m| - 1].0 == key(m[|m| - 1].1)
    requires |values| == |m| && values[|m| - 1] == m[|m| - 1].1
    requires PutAll([], key, values[..|m| - 1]) == m[..|m| - 1]
    ensures PutAll([], key, values) == m
  {
    var front, last := m[..|m| - 1], m[|m| - 1];
    PutNew(front, last.0, last.1);
    assert m == front + [last];
  }

  lemma {:induction false} ValuesFront<V>(m: Entries<V>)
    requires m != []
    ensures Values(m)[..|m| - 1] == Values(m[..|m| - 1]) && Values(m)[|m| - 1] == m[|m| - 1].1
  {
    if |m| == 1 {
    } else {
      ValuesFront(m[1..]);
      assert m[..|m| - 1][1..] == m[1..][..|m| - 2];
      assert Values(m)[..|m| - 1] == [m[0].1] + Values(m[1..])[..|m| - 2];
    }
  }

  /** The round trip through the stored form. */
  lemma JsonRoundTrip(m: Maps)
    requires MapsOk(m)
    ensures FromJson(ToJson(ToProjection(m))) == ToProjection(m)
    ensures var p := FromJson(ToJson(ToProjection(m)));
            Maps(p.instance, p.seen, PutAll([], EffectKey, p.pendingEffects), PutAll([], TaskKey, p.pendingTasks)) == m
  {
    FromEntriesOfMap(m.seen);
    EntriesOfValues(m.effects, EffectKey);
    EntriesOfValues(m.tasks, TaskKey);
  }

  /**
   * Appending records one at a time, each to the projection read back from its stored form, ends with the projection
   * that replaying the whole journal computes, the order of pending effects and tasks included.
   */
  method StoreJournal(journal: seq<Record>) returns (row: Option<Stored>)
    ensures row == if journal == [] then None else Some(ToJson(ToProjection(Replayed(journal))))
    ensures row.Some? ==> FromJson(row.value) == ToProjection(Replayed(journal))
  {
    row := None;
    for i := 0 to |journal|
      invariant row == if i == 0 then None else Some(ToJson(ToProjection(Replayed(journal[..i]))))
    {
      assert journal[..i + 1][..i] == journal[..i];
      ReplayedOk(journal[..i]);
      JsonRoundTrip(Replayed(journal[..i]));
      var current := if row.Some? then Some(FromJson(row.value)) else None;
      var next := ApplyRecordToProjection(current, journal[i]);
      row := Some(ToJson(next));
    }
    assert journal[..|journal|] == journal;
    ReplayedOk(journal);
    JsonRoundTrip(Replayed(journal));
  }
}

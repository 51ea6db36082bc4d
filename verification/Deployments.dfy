/** Which states an instance can be in while specifications are deployed, redeployed and edited around its journal. */
module Deployments {
  import opened Options
  import opened Guard
  import opened Digraphs
  import opened SpecValidation
  import opened Projections
  import opened Engine
  import opened WorkflowRuns
  import opened Verdicts

  // ----- what a group of specifications reaches together

  /** The engine tells specifications apart by these two, and by nothing else. */
  predicate SameName(a: Spec, b: Spec)
  {
    a.specId == b.specId && a.specVersion == b.specVersion
  }

  /** Some specification of the group starts in `s`. */
  ghost predicate JointStart(pool: set<Spec>, group: Spec, s: string)
  {
    exists q :: q in pool && SameName(q, group) && q.initialState == s
  }

  /** Some specification of the group has a transition from `u` to `v`. */
  ghost predicate JointStep(pool: set<Spec>, group: Spec, u: string, v: string)
  {
    exists q, t :: q in pool && SameName(q, group) && t in q.transitions && t.from == u && t.to == v
  }

  ghost predicate JointPath(pool: set<Spec>, group: Spec, p: seq<string>)
  {
    && |p| > 0 && JointStart(pool, group, p[0])
    && forall i :: 0 <= i < |p| - 1 ==> JointStep(pool, group, p[i], p[i + 1])
  }

  ghost predicate JointReaches(pool: set<Spec>, group: Spec, s: string)
  {
    exists p :: JointPath(pool, group, p) && p[|p| - 1] == s
  }

  lemma JointBegins(pool: set<Spec>, q: Spec)
    requires q in pool
    ensures JointReaches(pool, q, q.initialState)
  {
    assert JointPath(pool, q, [q.initialState]);
  }

  lemma JointOnward(pool: set<Spec>, group: Spec, u: string, v: string)
    requires JointReaches(pool, group, u) && JointStep(pool, group, u, v)
    ensures JointReaches(pool, group, v)
  {
    var p :| JointPath(pool, group, p) && p[|p| - 1] == u;
    var q := p + [v];
    forall i | 0 <= i < |q| - 1
      ensures JointStep(pool, group, q[i], q[i + 1])
    {
      assert i < |p| - 1 ==> JointStep(pool, group, p[i], p[i + 1]);
    }
    assert JointPath(pool, group, q) && q[|q| - 1] == v;
  }

  // ----- every run stays in what its group reaches

  ghost predicate Over(pool: set<Spec>, specs: seq<Spec>)
  {
    forall i :: 0 <= i < |specs| ==> specs[i] in pool
  }

  ghost predicate JointHome(pool: set<Spec>, group: Spec, inst: Instance)
  {
    group in pool && Matches(group, inst) && JointReaches(pool, group, inst.state)
  }

  lemma JointHomeStep(pool: set<Spec>, group: Spec, spec: Spec, journal: seq<Record>, rec: Record)
    requires spec in pool && LegalAppend(spec, journal, rec) && Answers(rec)
    requires JointHome(pool, group, Current(spec, Replayed(journal)))
    ensures JointHome(pool, group, rec.nextInstance)
  {
    var inst := Current(spec, Replayed(journal));
    if rec.Commit? {
      var t :| Steps(spec, inst, rec.nextInstance, t);
      assert SameName(spec, group) && JointStep(pool, group, inst.state, t.to);
      JointOnward(pool, group, inst.state, t.to);
    }
  }

  lemma {:induction false} RunStaysJoint(pool: set<Spec>, journal: seq<Record>, specs: seq<Spec>)
    requires LegalRun(journal, specs) && Over(pool, specs)
    ensures Replayed(journal).instance.Some? ==>
              exists group :: JointHome(pool, group, Replayed(journal).instance.value)
  {
    if journal == [] {
    } else {
      var n := |journal| - 1;
      LegalPrefix(journal, specs, n);
      RunStaysJoint(pool, journal[..n], specs[..n]);
      assert LegalAt(journal, specs, n);
      if Answers(journal[n]) {
        var inst := Current(specs[n], Replayed(journal[..n]));
        if Replayed(journal[..n]).instance.Some? {
          var group :| JointHome(pool, group, inst);
          JointHomeStep(pool, group, specs[n], journal[..n], journal[n]);
        } else {
          JointBegins(pool, specs[n]);
          JointHomeStep(pool, specs[n], specs[n], journal[..n], journal[n]);
        }
      }
    }
  }

  // ----- and can be anywhere in it

  /** A run that leaves the instance of the group in `state`, its last answer to `event` at the time `at`. */
  ghost predicate Visits(pool: set<Spec>, group: Spec, journal: seq<Record>, specs: seq<Spec>, event: string, at: int,
                         state: string)
  {
    var m := Replayed(journal);
    && LegalRun(journal, specs) && Over(pool, specs) && NotBefore(journal, at)
    && m.instance.Some? && Matches(group, m.instance.value) && m.instance.value.state == state
    && Get(m.seen, event) == Some(at)
  }

  /** The first record: a rejection under a specification that starts in the state. */
  lemma VisitStart(pool: set<Spec>, group: Spec, event: string, q: Spec)
    requires q in pool && SameName(q, group)
    ensures Visits(pool, group, [Rejection(event, 0, NoTransition, InitialInstance(q))], [q], event, 0, q.initialState)
  {
    var rec := Rejection(event, 0, NoTransition, InitialInstance(q));
    assert LegalAppend(q, [], rec);
    OneRecord(rec, q);
  }

  lemma OneRecord(rec: Record, q: Spec)
    requires LegalAppend(q, [], rec)
    ensures LegalRun([rec], [q]) && Replayed([rec]) == Update(EMPTY_MAPS, rec)
  {
    assert LegalRun([], []);
    LegalExtend([], [], rec, q);
    assert [] + [rec] == [rec] && [] + [q] == [q];
    assert [rec][..0] == [];
  }

  /** One more commit, after the event has been forgotten. */
  lemma VisitNext(pool: set<Spec>, group: Spec, journal: seq<Record>, specs: seq<Spec>, event: string, at: int,
                  u: string, v: string)
    returns (journal': seq<Record>, specs': seq<Spec>)
    requires Visits(pool, group, journal, specs, event, at, u) && JointStep(pool, group, u, v)
    ensures Visits(pool, group, journal', specs', event, at + TTL + 1, v)
  {
    var q, t :| q in pool && SameName(q, group) && t in q.transitions && t.from == u && t.to == v;
    var m := Replayed(journal);
    var inst := m.instance.value;
    var next := inst.(state := v, version := inst.version + 1);
    var rec := Commit("", event, at + TTL + 1, next, [], []);
    assert Steps(q, inst, next, t);
    assert LegalAppend(q, journal, rec);
    LegalExtend(journal, specs, rec, q);
    journal', specs' := journal + [rec], specs + [q];
    assert journal'[..|journal|] == journal;
    GetPut(m.seen, event, at + TTL + 1, event);
  }

  lemma {:induction false} PathIsRun(pool: set<Spec>, group: Spec, event: string, p: seq<string>)
    returns (journal: seq<Record>, specs: seq<Spec>, at: int)
    requires JointPath(pool, group, p)
    ensures Visits(pool, group, journal, specs, event, at, p[|p| - 1])
  {
    if |p| == 1 {
      var q :| q in pool && SameName(q, group) && q.initialState == p[0];
      VisitStart(pool, group, event, q);
      journal, specs, at := [Rejection(event, 0, NoTransition, InitialInstance(q))], [q], 0;
    } else {
      var n := |p| - 1;
      assert JointStep(pool, group, p[n - 1], p[n - 1 + 1]);
      journal, specs, at := PathIsRun(pool, group, event, p[..n]);
      journal, specs := VisitNext(pool, group, journal, specs, event, at, p[n - 1], p[n]);
      at := at + TTL + 1;
    }
  }

  // ----- the exact condition

  /** The instance is in a state of every specification the engine would accept for it. */
  ghost predicate Inside(pool: set<Spec>, journal: seq<Record>)
  {
    Replayed(journal).instance.Some? ==>
      forall q :: q in pool && Matches(q, Replayed(journal).instance.value) ==>
        Replayed(journal).instance.value.state in q.states
  }

  /** Each specification knows every state that its group reaches together. */
  ghost predicate Covered(pool: set<Spec>)
  {
    forall q, s :: q in pool && JointReaches(pool, q, s) ==> s in q.states
  }

  lemma CoveredStays(pool: set<Spec>, journal: seq<Record>, specs: seq<Spec>)
    requires Covered(pool) && LegalRun(journal, specs) && Over(pool, specs)
    ensures Inside(pool, journal)
  {
    RunStaysJoint(pool, journal, specs);
    if Replayed(journal).instance.Some? {
      var inst := Replayed(journal).instance.value;
      var group :| JointHome(pool, group, inst);
      forall q | q in pool && Matches(q, inst)
        ensures inst.state in q.states
      {
        JointSameName(pool, group, q, inst.state);
      }
    }
  }

  /** What a group reaches does not depend on the member that names it. */
  lemma JointSameName(pool: set<Spec>, a: Spec, b: Spec, s: string)
    requires SameName(a, b) && JointReaches(pool, a, s)
    ensures JointReaches(pool, b, s)
  {
    var p :| JointPath(pool, a, p) && p[|p| - 1] == s;
    forall i | 0 <= i < |p| - 1
      ensures JointStep(pool, b, p[i], p[i + 1])
    {
      assert JointStep(pool, a, p[i], p[i + 1]);
    }
    assert JointPath(pool, b, p);
  }

  /**
   * Whatever specifications are deployed in whatever order, the instance is always in a state of the one at hand, if
   * and only if each of them has every state that those of its id and version reach together.
   */
  lemma AlwaysInsideIff(pool: set<Spec>)
    ensures (forall journal, specs :: LegalRun(journal, specs) && Over(pool, specs) ==> Inside(pool, journal)) <==>
            Covered(pool)
  {
    if Covered(pool) {
      forall journal, specs | LegalRun(journal, specs) && Over(pool, specs)
        ensures Inside(pool, journal)
      {
        CoveredStays(pool, journal, specs);
      }
    } else {
      var q, s :| q in pool && JointReaches(pool, q, s) && s !in q.states;
      var p :| JointPath(pool, q, p) && p[|p| - 1] == s;
      var journal, specs, at := PathIsRun(pool, q, "", p);
      assert !Inside(pool, journal);
    }
  }

  // ----- specifications that are never edited

  function GraphOf(spec: Spec): Digraph
  {
    StateGraph(spec.states, spec.transitions)
  }

  /** The instance belongs to the specification and sits in a state its transitions reach. */
  ghost predicate AtHome(spec: Spec, inst: Instance)
  {
    Matches(spec, inst) && inst.state in spec.states && Reaches(GraphOf(spec), spec.initialState, inst.state)
  }

  /** Specifications are identified by id and version, and each has been validated. */
  ghost predicate Deployed(specs: seq<Spec>)
  {
    && (forall i :: 0 <= i < |specs| ==> WellFormed(specs[i]))
    && (forall i, j :: 0 <= i < |specs| && 0 <= j < |specs| ==>
          specs[i].specId == specs[j].specId && specs[i].specVersion == specs[j].specVersion ==> specs[i] == specs[j])
  }

  ghost function PoolOf(specs: seq<Spec>): set<Spec>
  {
    set q | q in specs
  }

  /** On its own, a specification reaches with its group what its transitions reach. */
  lemma {:induction false} AloneReaches(specs: seq<Spec>, g: Spec, p: seq<string>)
    requires Deployed(specs) && g in specs && JointPath(PoolOf(specs), g, p)
    ensures p[|p| - 1] in g.states && Reaches(GraphOf(g), g.initialState, p[|p| - 1])
  {
    var pool, n := PoolOf(specs), |p| - 1;
    if n == 0 {
      var q :| q in pool && SameName(q, g) && q.initialState == p[0];
      OneOfAName(specs, q, g);
      ReachesSelf(GraphOf(g), g.initialState);
    } else {
      AloneReaches(specs, g, p[..n]);
      assert JointStep(pool, g, p[n - 1], p[n - 1 + 1]);
      var q, t :| q in pool && SameName(q, g) && t in q.transitions && t.from == p[n - 1] && t.to == p[n];
      OneOfAName(specs, q, g);
      TransitionOnward(g, t);
    }
  }

  lemma OneOfAName(specs: seq<Spec>, a: Spec, b: Spec)
    requires Deployed(specs) && a in specs && b in specs && SameName(a, b)
    ensures a == b && WellFormed(a)
  {
    var i :| 0 <= i < |specs| && specs[i] == a;
    var j :| 0 <= j < |specs| && specs[j] == b;
    assert specs[i] == specs[j];
  }

  lemma TransitionOnward(g: Spec, t: Transition)
    requires WellFormed(g) && t in g.transitions && Reaches(GraphOf(g), g.initialState, t.from)
    ensures t.to in g.states && Reaches(GraphOf(g), g.initialState, t.to)
  {
    var i :| 0 <= i < |g.transitions| && g.transitions[i] == t;
    TargetsAreSteps(g.transitions, t.from, t.to);
    assert Edge(GraphOf(g), t.from, t.to);
    ReachesEdge(GraphOf(g), t.from, t.to);
    ReachesTransitive(GraphOf(g), g.initialState, t.from, t.to);
  }

  /** The specification that created the instance; no other engine moves it. */
  ghost predicate Housed(specs: seq<Spec>, inst: Instance)
  {
    exists i :: 0 <= i < |specs| && AtHome(specs[i], inst)
  }

  /** Where id and version determine the specification, the instance is in a reachable state of its own. */
  lemma StateAlwaysReachable(journal: seq<Record>, specs: seq<Spec>)
    requires LegalRun(journal, specs) && Deployed(specs)
    ensures Replayed(journal).instance.Some? ==> Housed(specs, Replayed(journal).instance.value)
  {
    var pool := PoolOf(specs);
    RunStaysJoint(pool, journal, specs);
    if Replayed(journal).instance.Some? {
      var inst := Replayed(journal).instance.value;
      var group :| JointHome(pool, group, inst);
      var p :| JointPath(pool, group, p) && p[|p| - 1] == inst.state;
      AloneReaches(specs, group, p);
      var i :| 0 <= i < |specs| && specs[i] == group;
      assert AtHome(specs[i], inst);
    }
  }

  /**
   * An accepted specification run from an empty store never shows a state the validator flagged, nor an unknown one.
   */
  lemma NeverInFlaggedState(raw: RawSpec, journal: seq<Record>, specs: seq<Spec>)
    requires Clean(raw) && LegalRun(journal, specs) && forall i :: 0 <= i < |specs| ==> specs[i] == TypedSpec(raw)
    requires Replayed(journal).instance.Some?
    ensures var state := Replayed(journal).instance.value.state; state in raw.states.value && !Flagged(raw, state)
  {
    CleanIsWellFormed(raw);
    StateAlwaysReachable(journal, specs);
  }

  lemma CleanIsWellFormed(raw: RawSpec)
    requires Clean(raw)
    ensures WellFormed(TypedSpec(raw))
  {
    CleanTableWellFormed(raw.transitions.value, raw.states.value, raw.allowlist.value);
  }

  // ----- any specifications at all

  /** Record `i` put the instance where it is: the last commit, or the first answer when nothing was committed. */
  ghost predicate Placed(journal: seq<Record>, i: int)
  {
    && 0 <= i < |journal| && Answers(journal[i]) && (forall k :: i < k < |journal| ==> !journal[k].Commit?)
    && (journal[i].Commit? || forall k :: 0 <= k < i ==> !Answers(journal[k]))
  }

  ghost predicate PlacedInside(journal: seq<Record>, specs: seq<Spec>, i: int)
    requires |specs| == |journal|
  {
    Placed(journal, i) && Replayed(journal).instance.Some? && Replayed(journal).instance.value.state in specs[i].states
  }

  /** With any specifications, edited or not, the state is one of those of the specification that last moved it. */
  lemma {:induction false} StateOfLastMover(journal: seq<Record>, specs: seq<Spec>)
    requires LegalRun(journal, specs) && forall i :: 0 <= i < |specs| ==> WellFormed(specs[i])
    ensures Replayed(journal).instance.Some? <==> exists i :: Placed(journal, i)
    ensures Replayed(journal).instance.Some? ==> exists i :: PlacedInside(journal, specs, i)
  {
    if journal == [] {
    } else {
      var n := |journal| - 1;
      var front, rec := journal[..n], journal[n];
      LegalPrefix(journal, specs, n);
      StateOfLastMover(front, specs[..n]);
      assert LegalAt(journal, specs, n);
      assert journal == front + [rec] && specs == specs[..n] + [specs[n]];
      MoverStep(front, specs[..n], rec, specs[n]);
    }
  }

  lemma MoverStep(front: seq<Record>, specs: seq<Spec>, rec: Record, spec: Spec)
    requires |specs| == |front| && WellFormed(spec) && LegalAppend(spec, front, rec)
    requires Replayed(front).instance.Some? <==> exists i :: Placed(front, i)
    requires Replayed(front).instance.Some? ==> exists i :: PlacedInside(front, specs, i)
    ensures Replayed(front + [rec]).instance.Some? <==> exists i :: Placed(front + [rec], i)
    ensures Replayed(front + [rec]).instance.Some? ==> exists i :: PlacedInside(front + [rec], specs + [spec], i)
  {
    var journal, n := front + [rec], |front|;
    assert journal[..n] == front;
    if Answers(rec) && (rec.Commit? || Replayed(front).instance.None?) {
      MoverMoves(front, specs, rec, spec);
    } else if Replayed(front).instance.Some? {
      var i :| PlacedInside(front, specs, i);
      assert PlacedInside(journal, specs + [spec], i);
    } else {
      forall k | 0 <= k < n
        ensures !Answers(journal[k])
      {
        NothingAnswered(front, k);
      }
    }
  }

  /** A commit, or the first answer of all, puts the instance where it is. */
  lemma MoverMoves(front: seq<Record>, specs: seq<Spec>, rec: Record, spec: Spec)
    requires |specs| == |front| && WellFormed(spec) && LegalAppend(spec, front, rec)
    requires Answers(rec) && (rec.Commit? || Replayed(front).instance.None?)
    ensures PlacedInside(front + [rec], specs + [spec], |front|)
  {
    var journal, n := front + [rec], |front|;
    assert journal[..n] == front;
    if rec.Commit? {
      var t :| Steps(spec, Current(spec, Replayed(front)), rec.nextInstance, t);
    } else {
      forall k | 0 <= k < n
        ensures !Answers(journal[k])
      {
        NothingAnswered(front, k);
      }
    }
  }

  lemma {:induction false} NothingAnswered(journal: seq<Record>, k: nat)
    requires Replayed(journal).instance.None? && k < |journal|
    ensures !Answers(journal[k])
  {
    var n := |journal| - 1;
    if k < n {
      NothingAnswered(journal[..n], k);
    }
  }

  // ----- an edit that strands an instance

  /** The engine answers with the verdict's record. */
  ghost predicate Written(spec: Spec, journal: seq<Record>, input: Input, facts: Facts, at: int, rec: Record)
  {
    var inst := Current(spec, Replayed(journal));
    match VerdictFor(spec, Replayed(journal), input, facts, at)
    case Dedupe => false
    case Reject(reason) => rec == Rejection(input.eventId, at, reason, inst)
    case Accept(t, effects) => rec == CommitRecord(spec, inst, input, facts, t, effects, at)
  }

  /**
   * An engine with one specification commits a transition; an engine with another of the same id and version, which
   * lacks the state, accepts the instance and finds no transition. Both records are the engine's own.
   */
  lemma EditStrands(first: Spec, edited: Spec, input: Input, facts: Facts, t: Transition, effects: seq<DecidedEffect>,
                    later: Input, facts': Facts)
    requires SameName(first, edited) && WellFormed(edited) && t.to !in edited.states
    requires VerdictFor(first, EMPTY_MAPS, input, facts, 0) == Accept(t, effects)
    requires later.eventId != input.eventId
    requires facts'.payloadBytes <= edited.limits.maxPayloadBytes && facts'.quota.None?
    ensures var commit := CommitRecord(first, InitialInstance(first), input, facts, t, effects, 0);
            var moved := commit.nextInstance;
            var reject := Rejection(later.eventId, 1, NoTransition, moved);
            && Written(first, [], input, facts, 0, commit) && Written(edited, [commit], later, facts', 1, reject)
            && LegalRun([commit, reject], [first, edited]) && Replayed([commit, reject]).instance == Some(moved)
            && Matches(edited, moved) && moved.state !in edited.states
  {
    var commit := CommitRecord(first, InitialInstance(first), input, facts, t, effects, 0);
    var moved := commit.nextInstance;
    var reject := Rejection(later.eventId, 1, NoTransition, moved);
    AfterFirst(commit);
    NoWayOut(edited, moved, later);
    VerdictIsLegal(first, [], input, facts, 0, 0);
    VerdictIsLegal(edited, [commit], later, facts', 1, 1);
    TwoRecords(commit, reject, first, edited);
  }

  lemma AfterFirst(commit: Record)
    requires commit.Commit?
    ensures Replayed([commit]) == Update(EMPTY_MAPS, commit)
    ensures Replayed([commit]).seen == [(commit.eventId, commit.recordedAt)]
  {
    assert [commit][..0] == [];
  }

  lemma NoWayOut(spec: Spec, inst: Instance, input: Input)
    requires WellFormed(spec) && inst.state !in spec.states && inst.status == Running
    ensures DecisionFor(spec, inst, input) == Refuse(NoTransition)
  {
    FindMeans(spec.transitions, inst.state, input.kind);
  }

  lemma TwoRecords(a: Record, b: Record, s: Spec, t: Spec)
    requires LegalAppend(s, [], a) && LegalAppend(t, [a], b) && b.Rejection?
    ensures LegalRun([a, b], [s, t]) && Replayed([a, b]).instance == Some(b.nextInstance)
  {
    OneRecord(a, s);
    LegalExtend([a], [s], b, t);
    assert [a] + [b] == [a, b] && [s] + [t] == [s, t];
    assert [a, b][..1] == [a];
  }

  /** A specification with one transition, and an edit of it that drops the target state. */
  function Draft(states: seq<string>, transitions: seq<Transition>): Spec
  {
    Spec("order", 1.0, 1.0, "a", [], states, transitions, [], Limits(0, 0, 0, 0, 0), [])
  }

  lemma EditedSpecStrands()
    ensures var t := Transition("a", "go", "b", None, None, [], []);
            var first, edited := Draft(["a", "b"], [t]), Draft(["a"], []);
            var facts := Facts(0, None, Null, 0, "c");
            var commit := CommitRecord(first, InitialInstance(first), Input("e", "go", Null), facts, t, [], 0);
            var reject := Rejection("f", 1, NoTransition, commit.nextInstance);
            && WellFormed(first) && WellFormed(edited)
            && Written(first, [], Input("e", "go", Null), facts, 0, commit)
            && Written(edited, [commit], Input("f", "go", Null), facts, 1, reject)
            && Replayed([commit, reject]).instance == Some(commit.nextInstance)
            && Matches(edited, commit.nextInstance) && commit.nextInstance.state !in edited.states
  {
    var t := Transition("a", "go", "b", None, None, [], []);
    var first, edited := Draft(["a", "b"], [t]), Draft(["a"], []);
    var facts := Facts(0, None, Null, 0, "c");
    DraftsWellFormed(t, first, edited);
    assert Find([t], "a", "go") == Some(t);
    assert VerdictFor(first, EMPTY_MAPS, Input("e", "go", Null), facts, 0) == Accept(t, []);
    EditStrands(first, edited, Input("e", "go", Null), facts, t, [], Input("f", "go", Null), facts);
  }

  lemma DraftsWellFormed(t: Transition, first: Spec, edited: Spec)
    requires t == Transition("a", "go", "b", None, None, [], [])
    requires first == Draft(["a", "b"], [t]) && edited == Draft(["a"], [])
    ensures WellFormed(first) && WellFormed(edited) && t.to !in edited.states && SameName(first, edited)
  {
    assert ["a", "b"][0] == "a" && ["a", "b"][1] == "b" && ["a"][0] == "a";
  }
}

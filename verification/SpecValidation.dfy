/** Validation of workflow specifications: the transition table and the search for unreachable states. */
module SpecValidation {
  import opened Options
  import opened Digraphs
  import opened Guard

  // ----- typed specifications

  datatype EffectTemplate = EffectTemplate(kind: string, params: Json)

  datatype NextInput = NextInput(kind: string, payload: Json, delayMs: nat)

  datatype TimeoutRule = TimeoutRule(inState: string, afterMs: nat, emit: NextInput)

  datatype Patch = Patch(sets: seq<(string, Json)>, unset: seq<string>)

  datatype Limits = Limits(
    maxEffects: nat, maxNextInputs: nat, maxContextBytes: nat, maxPayloadBytes: nat, maxGuardOps: nat)

  datatype Transition = Transition(
    from: string, on: string, to: string,
    guard: Option<Pred>, patch: Option<Patch>, effects: seq<EffectTemplate>, nextInputs: seq<NextInput>)

  datatype Spec = Spec(
    specId: string, specVersion: real, schemaVersion: real, initialState: string, terminalStates: seq<string>,
    states: seq<string>, transitions: seq<Transition>, allowlist: seq<string>, limits: Limits,
    timeouts: seq<TimeoutRule>)

  // ----- what arrives: every field may be missing or of the wrong type

  /** An optional part whose own validator either reports an error or returns the typed value. */
  datatype Part<T> = Absent | Invalid | Present(value: T)

  datatype RawTransition =
    | NotAnObject
    | Fields(from: Option<string>, on: Option<string>, to: Option<string>, guard: Part<Pred>, patch: Part<Patch>,
             effects: Part<seq<EffectTemplate>>, nextInputs: Part<seq<NextInput>>)

  datatype RawSpec = RawSpec(
    specId: Option<string>, specVersion: Option<real>, schemaVersion: Option<real>, initialState: Option<string>,
    terminalStates: Option<seq<string>>, states: Option<seq<string>>, limits: Option<Limits>,
    allowlist: Option<seq<string>>, transitions: Option<seq<RawTransition>>, timeouts: Part<seq<TimeoutRule>>)

  datatype Code =
    | GuardInvalid
    | CtxPatchInvalid
    | EffectsInvalid
    | NextInputsInvalid
    | EffectTypeNotAllowed
    | TransitionFromUnknown
    | TransitionToUnknown
    | TransitionNotObject
    | TransitionFieldsInvalid
    | DuplicateTransition
    | SpecIdInvalid
    | SpecVersionInvalid
    | SchemaVersionInvalid
    | InitialStateInvalid
    | TerminalStatesInvalid
    | StatesInvalid
    | LimitsInvalid
    | PermissionsInvalid
    | TransitionsInvalid
    | TerminalStateUnknown
    | InitialStateUnknown
    | TimeoutsInvalid
    | TimeoutInstateUnknown

  datatype Issue = Error(code: Code, index: nat) | UnreachableState(state: string)


  // ----- one entry of the transition table

  /** A string that is there and not empty. */
  predicate Given(s: Option<string>)
  {
    s.Some? && s.value != ""
  }

  predicate Readable(t: RawTransition)
  {
    t.Fields? && Given(t.from) && Given(t.on) && Given(t.to)
  }

  function Key(from: string, on: string): string
  {
    from + "::" + on
  }

  /** The key an entry is known by; unreadable entries have none. */
  function KeyOf(t: RawTransition): Option<string>
  {
    if Readable(t) then Some(Key(t.from.value, t.on.value)) else None
  }

  /** One of the first `n` entries is readable and has the key. */
  ghost predicate KeyMet(raws: seq<RawTransition>, n: nat, k: string)
    requires n <= |raws|
  {
    exists j :: 0 <= j < n && KeyOf(raws[j]) == Some(k)
  }

  /** An earlier readable entry has the same key. */
  ghost predicate Repeated(raws: seq<RawTransition>, i: nat)
    requires i < |raws|
  {
    KeyOf(raws[i]).Some? && KeyMet(raws, i, KeyOf(raws[i]).value)
  }

  predicate PartsValid(t: RawTransition)
    requires Readable(t)
  {
    !t.guard.Invalid? && !t.patch.Invalid? && !t.effects.Invalid? && !t.nextInputs.Invalid?
  }

  function ErrorIf(bad: bool, code: Code, i: nat): seq<Issue>
  {
    if bad then [Error(code, i)] else []
  }

  function Listed<T>(p: Part<seq<T>>): seq<T>
  {
    if p.Present? then p.value else []
  }

  function Optional<T>(p: Part<T>): Option<T>
  {
    if p.Present? then Some(p.value) else None
  }

  /** The entry `i` deserves the code, judged by it and the entries before it. */
  ghost predicate Deserves(raws: seq<RawTransition>, i: nat, code: Code, states: seq<string>, allowlist: seq<string>)
    requires i < |raws|
  {
    var t := raws[i];
    match code
    case TransitionNotObject => t.NotAnObject?
    case TransitionFieldsInvalid => t.Fields? && !Readable(t)
    case TransitionFromUnknown => Readable(t) && t.from.value !in states
    case TransitionToUnknown => Readable(t) && t.to.value !in states
    case DuplicateTransition => Repeated(raws, i)
    case GuardInvalid => First(raws, i) && t.guard.Invalid?
    case CtxPatchInvalid => First(raws, i) && t.patch.Invalid?
    case EffectsInvalid => First(raws, i) && t.effects.Invalid?
    case NextInputsInvalid => First(raws, i) && t.nextInputs.Invalid?
    case EffectTypeNotAllowed => Kept(raws, i) && exists e :: e in Listed(t.effects) && e.kind !in allowlist
    case _ => false
  }

  /** The entry is the first with its key. */
  ghost predicate First(raws: seq<RawTransition>, i: nat)
    requires i < |raws|
  {
    Readable(raws[i]) && !Repeated(raws, i)
  }

  function Typed(t: RawTransition): Transition
  {
    if !Readable(t) then Transition("", "", "", None, None, [], [])
    else Transition(t.from.value, t.on.value, t.to.value, Optional(t.guard), Optional(t.patch), Listed(t.effects),
               Listed(t.nextInputs))
  }

  ghost predicate Kept(raws: seq<RawTransition>, i: nat)
    requires i < |raws|
  {
    First(raws, i) && PartsValid(raws[i])
  }

  ghost function KeptUpTo(raws: seq<RawTransition>, n: nat): seq<Transition>
    requires n <= |raws|
  {
    if n == 0 then []
    else KeptUpTo(raws, n - 1) + if Kept(raws, n - 1) then [Typed(raws[n - 1])] else []
  }

  method CheckEffects(effects: seq<EffectTemplate>, allowlist: seq<string>, i: nat) returns (issues: seq<Issue>)
    ensures forall x :: x in issues ==> x == Error(EffectTypeNotAllowed, i)
    ensures Error(EffectTypeNotAllowed, i) in issues <==> exists e :: e in effects && e.kind !in allowlist
  {
    issues := [];
    for j := 0 to |effects|
      invariant forall x :: x in issues ==> x == Error(EffectTypeNotAllowed, i)
      invariant Error(EffectTypeNotAllowed, i) in issues <==> exists e :: e in effects[..j] && e.kind !in allowlist
    {
      assert effects[..j + 1] == effects[..j] + [effects[j]];
      if effects[j].kind !in allowlist {
        issues := issues + [Error(EffectTypeNotAllowed, i)];
      }
    }
    assert effects[..|effects|] == effects;
  }

  /** The keys met in the first `n` entries. */
  ghost predicate SeenKeys(raws: seq<RawTransition>, n: nat, seen: set<string>)
    requires n <= |raws|
  {
    forall k :: k in seen <==> KeyMet(raws, n, k)
  }

  lemma KeysGrow(raws: seq<RawTransition>, n: nat)
    requires n < |raws|
    ensures forall k :: KeyMet(raws, n + 1, k) <==> KeyMet(raws, n, k) || KeyOf(raws[n]) == Some(k)
  {
  }

  /** The issues about entries from `a` on and before `b`. */
  ghost predicate Reports(issues: seq<Issue>, raws: seq<RawTransition>, a: nat, b: nat, states: seq<string>,
                          allowlist: seq<string>)
    requires b <= |raws|
  {
    forall x :: x in issues <==>
      x.Error? && a <= x.index < b && Deserves(raws, x.index, x.code, states, allowlist)
  }

  lemma ReportsJoin(issues: seq<Issue>, found: seq<Issue>, raws: seq<RawTransition>, i: nat,
                    states: seq<string>, allowlist: seq<string>)
    requires i < |raws|
    requires Reports(issues, raws, 0, i, states, allowlist) && Reports(found, raws, i, i + 1, states, allowlist)
    ensures Reports(issues + found, raws, 0, i + 1, states, allowlist)
  {
    assert forall x :: x in issues + found <==> x in issues || x in found;
  }

  /** The loop over the table with its set of keys says exactly what each entry deserves. */
  method CheckTransitions(raws: seq<RawTransition>, states: seq<string>, allowlist: seq<string>)
    returns (issues: seq<Issue>, transitions: seq<Transition>)
    ensures Reports(issues, raws, 0, |raws|, states, allowlist)
    ensures transitions == KeptUpTo(raws, |raws|)
  {
    issues, transitions := [], [];
    var seen: set<string> := {};
    for i := 0 to |raws|
      invariant Reports(issues, raws, 0, i, states, allowlist)
      invariant transitions == KeptUpTo(raws, i)
      invariant SeenKeys(raws, i, seen)
    {
      var found, kept;
      found, kept, seen := CheckEntry(raws, i, states, allowlist, seen);
      ReportsJoin(issues, found, raws, i, states, allowlist);
      issues := issues + found;
      if kept {
        transitions := transitions + [Typed(raws[i])];
      }
    }
  }

  method CheckEntry(raws: seq<RawTransition>, i: nat, states: seq<string>, allowlist: seq<string>, seen: set<string>)
    returns (found: seq<Issue>, kept: bool, seen': set<string>)
    requires i < |raws| && SeenKeys(raws, i, seen)
    ensures Reports(found, raws, i, i + 1, states, allowlist)
    ensures kept <==> Kept(raws, i)
    ensures SeenKeys(raws, i + 1, seen')
  {
    KeysGrow(raws, i);
    var t := raws[i];
    seen' := seen;
    if t.NotAnObject? {
      return [Error(TransitionNotObject, i)], false, seen;
    }
    if !Readable(t) {
      return [Error(TransitionFieldsInvalid, i)], false, seen;
    }
    found := ErrorIf(t.from.value !in states, TransitionFromUnknown, i) +
             ErrorIf(t.to.value !in states, TransitionToUnknown, i);
    var k := KeyOf(t).value;
    if k in seen {
      return found + [Error(DuplicateTransition, i)], false, seen;
    }
    seen' := seen + {k};
    var parts := CheckParts(t, allowlist, i);
    found := found + parts;
    kept := PartsValid(t);
  }

  /** The optional parts: one issue for each invalid one, and the effect types once all are valid. */
  method CheckParts(t: RawTransition, allowlist: seq<string>, i: nat) returns (found: seq<Issue>)
    requires Readable(t)
    ensures forall x :: x in found <==>
      x.Error? && x.index == i &&
      match x.code
      case GuardInvalid => t.guard.Invalid?
      case CtxPatchInvalid => t.patch.Invalid?
      case EffectsInvalid => t.effects.Invalid?
      case NextInputsInvalid => t.nextInputs.Invalid?
      case EffectTypeNotAllowed => PartsValid(t) && exists e :: e in Listed(t.effects) && e.kind !in allowlist
      case _ => false
  {
    found := ErrorIf(t.guard.Invalid?, GuardInvalid, i);
    found := found + ErrorIf(t.patch.Invalid?, CtxPatchInvalid, i);
    found := found + ErrorIf(t.effects.Invalid?, EffectsInvalid, i);
    found := found + ErrorIf(t.nextInputs.Invalid?, NextInputsInvalid, i);
    if PartsValid(t) {
      var disallowed := CheckEffects(Listed(t.effects), allowlist, i);
      found := found + disallowed;
    }
  }

  // ----- when the table is clean

  ghost predicate CleanAt(raws: seq<RawTransition>, i: nat, states: seq<string>, allowlist: seq<string>)
    requires i < |raws|
  {
    && Kept(raws, i) && raws[i].from.value in states && raws[i].to.value in states
    && forall e :: e in Listed(raws[i].effects) ==> e.kind in allowlist
  }

  ghost predicate CleanTable(raws: seq<RawTransition>, states: seq<string>, allowlist: seq<string>)
  {
    forall i :: 0 <= i < |raws| ==> CleanAt(raws, i, states, allowlist)
  }

  function TypedTable(raws: seq<RawTransition>): (ts: seq<Transition>)
    ensures |ts| == |raws| && forall i :: 0 <= i < |ts| ==> ts[i] == Typed(raws[i])
  {
    seq(|raws|, i requires 0 <= i < |raws| => Typed(raws[i]))
  }

  /** No issue at all exactly when every entry is in order. */
  lemma NoIssuesIffClean(issues: seq<Issue>, raws: seq<RawTransition>, states: seq<string>, allowlist: seq<string>)
    requires Reports(issues, raws, 0, |raws|, states, allowlist)
    ensures issues == [] <==> CleanTable(raws, states, allowlist)
  {
    if issues != [] {
      assert issues[0] in issues;
      assert !CleanAt(raws, issues[0].index, states, allowlist);
    } else {
      forall i | 0 <= i < |raws|
        ensures CleanAt(raws, i, states, allowlist)
      {
        forall code ensures !Deserves(raws, i, code, states, allowlist) {
          assert Error(code, i) !in issues;
        }
        UndeservingIsClean(raws, i, states, allowlist);
      }
    }
  }

  lemma UndeservingIsClean(raws: seq<RawTransition>, i: nat, states: seq<string>, allowlist: seq<string>)
    requires i < |raws| && forall code :: !Deserves(raws, i, code, states, allowlist)
    ensures CleanAt(raws, i, states, allowlist)
  {
    assert !Deserves(raws, i, TransitionNotObject, states, allowlist);
    assert !Deserves(raws, i, TransitionFieldsInvalid, states, allowlist);
    assert !Deserves(raws, i, DuplicateTransition, states, allowlist);
    assert !Deserves(raws, i, GuardInvalid, states, allowlist);
    assert !Deserves(raws, i, CtxPatchInvalid, states, allowlist);
    assert !Deserves(raws, i, EffectsInvalid, states, allowlist);
    assert !Deserves(raws, i, NextInputsInvalid, states, allowlist);
    assert !Deserves(raws, i, TransitionFromUnknown, states, allowlist);
    assert !Deserves(raws, i, TransitionToUnknown, states, allowlist);
    assert !Deserves(raws, i, EffectTypeNotAllowed, states, allowlist);
  }

  lemma {:induction false} CleanKeepsAll(raws: seq<RawTransition>, n: nat)
    requires n <= |raws| && forall i :: 0 <= i < n ==> Kept(raws, i)
    ensures KeptUpTo(raws, n) == TypedTable(raws[..n])
  {
    if n == 0 {
    } else {
      CleanKeepsAll(raws, n - 1);
      assert raws[..n] == raws[..n - 1] + [raws[n - 1]];
    }
  }

  lemma CleanTableKept(raws: seq<RawTransition>, states: seq<string>, allowlist: seq<string>)
    requires CleanTable(raws, states, allowlist)
    ensures KeptUpTo(raws, |raws|) == TypedTable(raws)
  {
    forall i | 0 <= i < |raws|
      ensures Kept(raws, i)
    {
      assert CleanAt(raws, i, states, allowlist);
    }
    CleanKeepsAll(raws, |raws|);
    assert raws[..|raws|] == raws;
  }

  // ----- the graph of states

  /** The targets of the transitions from `s`, in table order. */
  function Targets(transitions: seq<Transition>, s: string): seq<string>
  {
    if transitions == [] then []
    else
      var front, last := transitions[..|transitions| - 1], transitions[|transitions| - 1];
      Targets(front, s) + if last.from == s then [last.to] else []
  }

  function StateGraph(states: seq<string>, transitions: seq<Transition>): Digraph
  {
    map s | s in states :: Targets(transitions, s)
  }

  lemma {:induction false} TargetsAreSteps(transitions: seq<Transition>, s: string, t: string)
    ensures t in Targets(transitions, s) <==>
            exists i :: 0 <= i < |transitions| && transitions[i].from == s && transitions[i].to == t
  {
    if transitions == [] {
    } else {
      var front, last := transitions[..|transitions| - 1], transitions[|transitions| - 1];
      TargetsAreSteps(front, s, t);
      assert transitions == front + [last];
      if i :| 0 <= i < |front| && front[i].from == s && front[i].to == t {
        assert transitions[i].from == s;
      }
      if i :| 0 <= i < |transitions| && transitions[i].from == s && transitions[i].to == t {
        assert i < |front| ==> front[i] == transitions[i];
      }
    }
  }

  method BuildGraph(states: seq<string>, transitions: seq<Transition>) returns (g: Digraph)
    requires forall t :: t in transitions ==> t.from in states
    ensures g == StateGraph(states, transitions)
  {
    g := map s | s in states :: [];
    for i := 0 to |transitions|
      invariant g == StateGraph(states, transitions[..i])
    {
      var t := transitions[i];
      assert t in transitions;
      forall s
        ensures Targets(transitions[..i + 1], s) == Targets(transitions[..i], s) + if t.from == s then [t.to] else []
      {
        assert transitions[..i + 1][..i] == transitions[..i];
      }
      g := g[t.from := g[t.from] + [t.to]];
      assert forall s :: s in states ==> g[s] == Targets(transitions[..i + 1], s);
    }
    assert transitions[..|transitions|] == transitions;
  }

  method Visit(g: Digraph, start: Node) returns (visited: set<Node>)
    ensures forall v :: v in visited <==> Reaches(g, start, v)
  {
    ReachesSelf(g, start);
    visited := {start};
    var queue := [start];
    ghost var done: set<Node> := {};
    while |queue| > 0
      invariant Exploring(g, start, visited, queue, done, {})
      decreases Nodes(g) + {start} - done
    {
      ExploreNext(g, start, visited, queue, done);
      var cur := queue[0];
      queue := queue[1..];
      visited, queue := VisitSuccessors(g, start, cur, visited, queue, done);
      done := done + {cur};
    }
    forall v
      ensures v in visited <==> Reaches(g, start, v)
    {
      Explored(g, start, visited, done, v);
    }
  }

  method VisitSuccessors(g: Digraph, start: Node, cur: Node, visited0: set<Node>, queue0: seq<Node>,
                         ghost done: set<Node>)
    returns (visited: set<Node>, queue: seq<Node>)
    requires Exploring(g, start, visited0, queue0, done, {cur})
    ensures Exploring(g, start, visited, queue, done + {cur}, {})
  {
    visited, queue := visited0, queue0;
    var outs := Successors(g, cur);
    for i := 0 to |outs|
      invariant Exploring(g, start, visited, queue, done, {cur})
      invariant forall k :: 0 <= k < i ==> outs[k] in visited
    {
      var next := outs[i];
      ExploreFound(g, start, visited, queue, done, cur, next);
      if next !in visited {
        visited := visited + {next};
        queue := queue + [next];
      }
    }
  }

  // ----- the whole validator

  ghost predicate CleanHeader(raw: RawSpec)
  {
    && Given(raw.specId) && raw.specVersion.Some? && raw.schemaVersion.Some? && Given(raw.initialState)
    && raw.terminalStates.Some? && raw.states.Some? && raw.limits.Some? && raw.allowlist.Some? && raw.transitions.Some?
  }

  /** Everything up to the timeouts is in order. */
  ghost predicate CleanStates(raw: RawSpec)
  {
    && CleanHeader(raw)
    && raw.initialState.value in raw.states.value
    && (forall s :: s in raw.terminalStates.value ==> s in raw.states.value)
    && CleanTable(raw.transitions.value, raw.states.value, raw.allowlist.value)
  }

  ghost predicate Clean(raw: RawSpec)
  {
    && CleanStates(raw) && !raw.timeouts.Invalid?
    && forall t :: t in Listed(raw.timeouts) ==> t.inState in raw.states.value
  }

  /** What the runtime may rely on. */
  ghost predicate WellFormed(spec: Spec)
  {
    && spec.initialState in spec.states
    && (forall t :: t in spec.transitions ==> t.from in spec.states && t.to in spec.states)
    && (forall i, j :: 0 <= i < j < |spec.transitions| ==>
          !(spec.transitions[i].from == spec.transitions[j].from && spec.transitions[i].on == spec.transitions[j].on))
    && (forall t, e :: t in spec.transitions && e in t.effects ==> e.kind in spec.allowlist)
    && (forall r :: r in spec.timeouts ==> r.inState in spec.states)
  }

  lemma CleanTableWellFormed(raws: seq<RawTransition>, states: seq<string>, allowlist: seq<string>)
    requires CleanTable(raws, states, allowlist)
    ensures var ts := TypedTable(raws);
            && (forall t :: t in ts ==> t.from in states && t.to in states)
            && (forall i, j :: 0 <= i < j < |ts| ==> !(ts[i].from == ts[j].from && ts[i].on == ts[j].on))
            && (forall t, e :: t in ts && e in t.effects ==> e.kind in allowlist)
  {
    var ts := TypedTable(raws);
    forall t | t in ts
      ensures t.from in states && t.to in states && forall e :: e in t.effects ==> e.kind in allowlist
    {
      var i :| 0 <= i < |ts| && ts[i] == t;
      assert CleanAt(raws, i, states, allowlist);
    }
    forall i, j | 0 <= i < j < |ts|
      ensures !(ts[i].from == ts[j].from && ts[i].on == ts[j].on)
    {
      assert CleanAt(raws, j, states, allowlist) && CleanAt(raws, i, states, allowlist);
      assert KeyOf(raws[i]) != KeyOf(raws[j]);
    }
  }

  /** What a header field deserves by itself. */
  predicate HeaderDeserves(raw: RawSpec, code: Code)
  {
    match code
    case SpecIdInvalid => !Given(raw.specId)
    case SpecVersionInvalid => raw.specVersion.None?
    case SchemaVersionInvalid => raw.schemaVersion.None?
    case InitialStateInvalid => !Given(raw.initialState)
    case TerminalStatesInvalid => raw.terminalStates.None?
    case StatesInvalid => raw.states.None?
    case LimitsInvalid => raw.limits.None?
    case PermissionsInvalid => raw.allowlist.None?
    case TransitionsInvalid => raw.transitions.None?
    case _ => false
  }

  method HeaderIssues(raw: RawSpec) returns (issues: seq<Issue>)
    ensures forall x :: x in issues <==> x.Error? && x.index == 0 && HeaderDeserves(raw, x.code)
    ensures issues == [] <==> CleanHeader(raw)
  {
    issues := FieldIssues(raw) + ListIssues(raw) + RestIssues(raw);
    if issues != [] {
      assert issues[0] in issues;
    } else {
      forall code
        ensures !HeaderDeserves(raw, code)
      {
        assert Error(code, 0) !in issues;
      }
      CleanByCodes(raw);
    }
  }

  function FieldIssues(raw: RawSpec): (issues: seq<Issue>)
    ensures forall x :: x in issues <==>
      && x.Error? && x.index == 0 && HeaderDeserves(raw, x.code)
      && (x.code == SpecIdInvalid || x.code == SpecVersionInvalid || x.code == SchemaVersionInvalid
          || x.code == InitialStateInvalid)
  {
    ErrorIf(!Given(raw.specId), SpecIdInvalid, 0) + ErrorIf(raw.specVersion.None?, SpecVersionInvalid, 0) +
    ErrorIf(raw.schemaVersion.None?, SchemaVersionInvalid, 0) +
    ErrorIf(!Given(raw.initialState), InitialStateInvalid, 0)
  }

  function ListIssues(raw: RawSpec): (issues: seq<Issue>)
    ensures forall x :: x in issues <==>
      && x.Error? && x.index == 0 && HeaderDeserves(raw, x.code)
      && (x.code == TerminalStatesInvalid || x.code == StatesInvalid)
  {
    ErrorIf(raw.terminalStates.None?, TerminalStatesInvalid, 0) + ErrorIf(raw.states.None?, StatesInvalid, 0)
  }

  function RestIssues(raw: RawSpec): (issues: seq<Issue>)
    ensures forall x :: x in issues <==>
      && x.Error? && x.index == 0 && HeaderDeserves(raw, x.code)
      && (x.code == LimitsInvalid || x.code == PermissionsInvalid || x.code == TransitionsInvalid)
  {
    ErrorIf(raw.limits.None?, LimitsInvalid, 0) + ErrorIf(raw.allowlist.None?, PermissionsInvalid, 0) +
    ErrorIf(raw.transitions.None?, TransitionsInvalid, 0)
  }

  lemma CleanByCodes(raw: RawSpec)
    requires forall code :: !HeaderDeserves(raw, code)
    ensures CleanHeader(raw)
  {
    assert !HeaderDeserves(raw, SpecIdInvalid) && !HeaderDeserves(raw, SpecVersionInvalid);
    assert !HeaderDeserves(raw, SchemaVersionInvalid) && !HeaderDeserves(raw, InitialStateInvalid);
    assert !HeaderDeserves(raw, TerminalStatesInvalid) && !HeaderDeserves(raw, StatesInvalid);
    assert !HeaderDeserves(raw, LimitsInvalid) && !HeaderDeserves(raw, PermissionsInvalid);
    assert !HeaderDeserves(raw, TransitionsInvalid);
  }

  /** One issue for each position whose name is not a state. */
  method UnknownStates(names: seq<string>, states: seq<string>, code: Code) returns (issues: seq<Issue>)
    ensures forall x :: x in issues <==>
      x.Error? && x.code == code && x.index < |names| && names[x.index] !in states
  {
    issues := [];
    for i := 0 to |names|
      invariant forall x :: x in issues <==> x.Error? && x.code == code && x.index < i && names[x.index] !in states
    {
      if names[i] !in states {
        issues := issues + [Error(code, i)];
      }
    }
  }

  method UnreachableStates(states: seq<string>, visited: set<string>) returns (issues: seq<Issue>)
    ensures forall x :: x in issues ==> x.UnreachableState?
    ensures forall s :: UnreachableState(s) in issues <==> s in states && s !in visited
  {
    issues := [];
    for i := 0 to |states|
      invariant forall x :: x in issues ==> x.UnreachableState?
      invariant forall s :: UnreachableState(s) in issues <==> s in states[..i] && s !in visited
    {
      assert states[..i + 1] == states[..i] + [states[i]];
      if states[i] !in visited {
        issues := issues + [UnreachableState(states[i])];
      }
    }
    assert states[..|states|] == states;
  }

  /** The states a valid table cannot reach; empty tables are not searched. */
  ghost predicate Flagged(raw: RawSpec, s: string)
  {
    && CleanStates(raw) && raw.transitions.value != [] && s in raw.states.value
    && !Reaches(StateGraph(raw.states.value, TypedTable(raw.transitions.value)), raw.initialState.value, s)
  }

  function TypedSpec(raw: RawSpec): Spec
    requires raw.specId.Some? && raw.specVersion.Some? && raw.schemaVersion.Some? && raw.initialState.Some?
    requires raw.terminalStates.Some? && raw.states.Some? && raw.limits.Some? && raw.allowlist.Some?
    requires raw.transitions.Some?
  {
    Spec(raw.specId.value, raw.specVersion.value, raw.schemaVersion.value, raw.initialState.value,
         raw.terminalStates.value, raw.states.value, TypedTable(raw.transitions.value), raw.allowlist.value,
         raw.limits.value, Listed(raw.timeouts))
  }

  /** An optional part that is read as a list, empty when absent. */
  ghost predicate ReadList<T>(part: Part<seq<T>>, list: seq<T>)
  {
    part == Present(list) || (part == Absent && list == [])
  }

  ghost predicate ReadPart<T>(part: Part<T>, value: Option<T>)
  {
    part == match value case Some(v) => Present(v) case None => Absent
  }

  /** The entry has the transition's fields, none of its names empty. */
  ghost predicate ReadEntry(r: RawTransition, t: Transition)
  {
    && r.Fields? && r.from == Some(t.from) && r.on == Some(t.on) && r.to == Some(t.to)
    && t.from != "" && t.on != "" && t.to != ""
    && ReadPart(r.guard, t.guard) && ReadPart(r.patch, t.patch)
    && ReadList(r.effects, t.effects) && ReadList(r.nextInputs, t.nextInputs)
  }

  /** The typed specification says what was given, field by field and entry by entry. */
  ghost predicate ReadSpec(raw: RawSpec, spec: Spec)
  {
    && raw.specId == Some(spec.specId) && spec.specId != ""
    && raw.specVersion == Some(spec.specVersion) && raw.schemaVersion == Some(spec.schemaVersion)
    && raw.initialState == Some(spec.initialState) && spec.initialState != ""
    && raw.terminalStates == Some(spec.terminalStates) && raw.states == Some(spec.states)
    && raw.allowlist == Some(spec.allowlist) && raw.limits == Some(spec.limits)
    && ReadList(raw.timeouts, spec.timeouts)
    && raw.transitions.Some? && |raw.transitions.value| == |spec.transitions|
    && forall i :: 0 <= i < |spec.transitions| ==> ReadEntry(raw.transitions.value[i], spec.transitions[i])
  }

  lemma CleanIsRead(raw: RawSpec)
    requires Clean(raw)
    ensures ReadSpec(raw, TypedSpec(raw))
  {
    var raws := raw.transitions.value;
    forall i | 0 <= i < |raws|
      ensures ReadEntry(raws[i], Typed(raws[i]))
    {
      assert CleanAt(raws, i, raw.states.value, raw.allowlist.value);
    }
  }

  /** What a specification with a clean header deserves before its timeouts are looked at. */
  ghost predicate StatesDeserve(raw: RawSpec, code: Code, i: nat)
    requires CleanHeader(raw)
  {
    var states, raws := raw.states.value, raw.transitions.value;
    || (code == InitialStateUnknown && i == 0 && raw.initialState.value !in states)
    || (code == TerminalStateUnknown && i < |raw.terminalStates.value| && raw.terminalStates.value[i] !in states)
    || (i < |raws| && Deserves(raws, i, code, states, raw.allowlist.value))
  }

  lemma NoStatesIssuesIffClean(raw: RawSpec, unknown: seq<Issue>, table: seq<Issue>)
    requires CleanHeader(raw)
    requires forall x :: x in unknown <==>
               && x.Error? && x.code == TerminalStateUnknown && x.index < |raw.terminalStates.value|
               && raw.terminalStates.value[x.index] !in raw.states.value
    requires Reports(table, raw.transitions.value, 0, |raw.transitions.value|, raw.states.value, raw.allowlist.value)
    ensures raw.initialState.value in raw.states.value && unknown == [] && table == [] <==> CleanStates(raw)
  {
    var names, states := raw.terminalStates.value, raw.states.value;
    NoIssuesIffClean(table, raw.transitions.value, states, raw.allowlist.value);
    if unknown != [] {
      assert unknown[0] in unknown && names[unknown[0].index] in names;
    } else {
      forall s | s in names
        ensures s in states
      {
        var i :| 0 <= i < |names| && names[i] == s;
        assert Error(TerminalStateUnknown, i) !in unknown;
      }
    }
  }

  /** The errors before the timeouts, exactly as deserved, and the typed table when there are none. */
  method StatesIssues(raw: RawSpec) returns (issues: seq<Issue>, transitions: seq<Transition>)
    requires CleanHeader(raw)
    ensures forall x :: x in issues <==> x.Error? && StatesDeserve(raw, x.code, x.index)
    ensures issues == [] <==> CleanStates(raw)
    ensures CleanStates(raw) ==> transitions == TypedTable(raw.transitions.value)
  {
    var states, initial, raws := raw.states.value, raw.initialState.value, raw.transitions.value;
    var unknown := UnknownStates(raw.terminalStates.value, states, TerminalStateUnknown);
    var table;
    table, transitions := CheckTransitions(raws, states, raw.allowlist.value);
    var first := ErrorIf(initial !in states, InitialStateUnknown, 0);
    issues := first + unknown + table;
    assert forall x :: x in issues <==> x in first || x in unknown || x in table;
    NoStatesIssuesIffClean(raw, unknown, table);
    if issues == [] {
      CleanTableKept(raws, states, raw.allowlist.value);
    }
  }

  /** The warnings: for a clean specification the states that cannot be reached, unless the table is empty. */
  method Warnings(raw: RawSpec, transitions: seq<Transition>) returns (issues: seq<Issue>)
    requires CleanStates(raw) && transitions == TypedTable(raw.transitions.value)
    ensures forall x :: x in issues <==> x.UnreachableState? && Flagged(raw, x.state)
  {
    issues := [];
    var states := raw.states.value;
    CleanTableWellFormed(raw.transitions.value, states, raw.allowlist.value);
    if |transitions| > 0 {
      var g := BuildGraph(states, transitions);
      var visited := Visit(g, raw.initialState.value);
      issues := UnreachableStates(states, visited);
    }
  }

  ghost predicate TimeoutDeserves(raw: RawSpec, code: Code, i: nat)
    requires raw.states.Some?
  {
    || (code == TimeoutsInvalid && i == 0 && raw.timeouts.Invalid?)
    || (code == TimeoutInstateUnknown && i < |Listed(raw.timeouts)|
        && Listed(raw.timeouts)[i].inState !in raw.states.value)
  }

  /** Exactly what a specification is told; a stage with errors is the last one. */
  ghost predicate Reported(raw: RawSpec, x: Issue)
  {
    match x
    case UnreachableState(s) => Flagged(raw, s)
    case Error(code, i) =>
      if !CleanHeader(raw) then i == 0 && HeaderDeserves(raw, code)
      else if !CleanStates(raw) then StatesDeserve(raw, code, i)
      else TimeoutDeserves(raw, code, i)
  }

  method ValidateSpec(raw: RawSpec) returns (issues: seq<Issue>, spec: Option<Spec>)
    ensures spec.Some? <==> Clean(raw)
    ensures forall x :: x in issues <==> Reported(raw, x)
    ensures spec.Some? ==> spec.value == TypedSpec(raw) && ReadSpec(raw, spec.value) && WellFormed(spec.value)
  {
    spec := None;
    issues := HeaderIssues(raw);
    if issues != [] {
      return;
    }
    var transitions;
    issues, transitions := StatesIssues(raw);
    if issues != [] {
      return;
    }
    var warnings := Warnings(raw, transitions);
    CleanTableWellFormed(raw.transitions.value, raw.states.value, raw.allowlist.value);
    var late := CheckTimeouts(raw);
    issues := warnings + late;
    assert forall x :: x in issues <==> x in warnings || x in late;
    if late != [] {
      return;
    }
    spec := Some(Spec(raw.specId.value, raw.specVersion.value, raw.schemaVersion.value, raw.initialState.value,
                      raw.terminalStates.value, raw.states.value, transitions, raw.allowlist.value, raw.limits.value,
                      Listed(raw.timeouts)));
    CleanIsRead(raw);
  }

  method CheckTimeouts(raw: RawSpec) returns (issues: seq<Issue>)
    requires CleanStates(raw)
    ensures forall x :: x in issues <==> x.Error? && TimeoutDeserves(raw, x.code, x.index)
    ensures issues == [] <==> Clean(raw)
  {
    var states, rules := raw.states.value, Listed(raw.timeouts);
    issues := ErrorIf(raw.timeouts.Invalid?, TimeoutsInvalid, 0);
    for i := 0 to |rules|
      invariant forall x :: x in issues <==>
        x.Error? && (if x.code == TimeoutsInvalid then x.index == 0 && raw.timeouts.Invalid?
                     else x.code == TimeoutInstateUnknown && x.index < i && rules[x.index].inState !in states)
    {
      if rules[i].inState !in states {
        issues := issues + [Error(TimeoutInstateUnknown, i)];
      }
    }
    TimeoutsClean(raw, issues);
  }

  lemma TimeoutsClean(raw: RawSpec, issues: seq<Issue>)
    requires CleanStates(raw)
    requires forall x :: x in issues <==> x.Error? && TimeoutDeserves(raw, x.code, x.index)
    ensures issues == [] <==> Clean(raw)
  {
    var rules := Listed(raw.timeouts);
    if issues != [] {
      assert issues[0] in issues;
      assert issues[0].code == TimeoutInstateUnknown ==> rules[issues[0].index] in rules;
    } else {
      assert Error(TimeoutsInvalid, 0) !in issues;
      forall t | t in rules
        ensures t.inState in raw.states.value
      {
        var i :| 0 <= i < |rules| && rules[i] == t;
        assert Error(TimeoutInstateUnknown, i) !in issues;
      }
    }
  }

  // ----- empty tables

  /** `s` has no path from the initial state. */
  ghost predicate Unreachable(raw: RawSpec, s: string)
    requires CleanStates(raw)
  {
    !Reaches(StateGraph(raw.states.value, TypedTable(raw.transitions.value)), raw.initialState.value, s)
  }

  /** Without transitions only the initial state is reachable. */
  lemma EmptyTableReaches(raw: RawSpec, s: string)
    requires CleanStates(raw) && raw.transitions.value == []
    ensures Unreachable(raw, s) <==> s != raw.initialState.value
  {
    var g, initial := StateGraph(raw.states.value, TypedTable(raw.transitions.value)), raw.initialState.value;
    ReachesSelf(g, initial);
    if Reaches(g, initial, s) {
      var p :| Path(g, p, initial, s);
      assert |p| == 1 || Edge(g, p[0], p[0 + 1]);
    }
  }

  /** The flags are exact precisely when there are transitions to search, or nothing but the initial state to find. */
  lemma FlagsExactIff(raw: RawSpec)
    requires Clean(raw)
    ensures (forall s :: s in raw.states.value ==> (Flagged(raw, s) <==> Unreachable(raw, s))) <==>
            raw.transitions.value != [] || forall s :: s in raw.states.value ==> s == raw.initialState.value
  {
    if raw.transitions.value == [] {
      forall s | s in raw.states.value
        ensures Unreachable(raw, s) <==> s != raw.initialState.value
      {
        EmptyTableReaches(raw, s);
      }
    }
  }

  /** A specification with the given states and table, in order in every other respect. */
  function Plain(states: seq<string>, initial: string, raws: seq<RawTransition>): RawSpec
  {
    RawSpec(Some("spec"), Some(1.0), Some(1.0), Some(initial), Some([]), Some(states), Some(Limits(0, 0, 0, 0, 0)),
            Some([]), Some(raws), Absent)
  }

  /** Accepted without a warning, although the second state cannot be reached. */
  lemma EmptyTableUnflagged(a: string, b: string)
    requires a != "" && a != b
    ensures var raw := Plain([a, b], a, []); Clean(raw) && Unreachable(raw, b) && !Flagged(raw, b)
  {
    var raw := Plain([a, b], a, []);
    assert [a, b][0] == a;
    EmptyTableReaches(raw, b);
  }
}

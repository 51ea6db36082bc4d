/** The workflow engine's decision on an input, and the tasks and ids that follow from it. */
module Engine {
  import opened Options
  import opened Guard
  import opened SpecValidation
  import opened Projections

  /** Milliseconds an event id is remembered: seven days. */
  const TTL: int := 7 * 24 * 60 * 60 * 1000

  datatype Input = Input(eventId: string, kind: string, payload: Json)

  // ----- the decision

  datatype DecidedEffect = DecidedEffect(effectId: string, kind: string, params: Json)

  datatype Decision = Refuse(reason: Reason) | Take(transition: Transition, effects: seq<DecidedEffect>)

  /** The first transition for a state and an input type. */
  function Find(transitions: seq<Transition>, from: string, on: string): Option<Transition>
  {
    if transitions == [] then None
    else if transitions[0].from == from && transitions[0].on == on then Some(transitions[0])
    else Find(transitions[1..], from, on)
  }

  method FindTransition(transitions: seq<Transition>, from: string, on: string) returns (t: Option<Transition>)
    ensures t == Find(transitions, from, on)
  {
    for i := 0 to |transitions|
      invariant Find(transitions[i..], from, on) == Find(transitions, from, on)
    {
      assert transitions[i..][0] == transitions[i] && transitions[i..][1..] == transitions[i + 1..];
      if transitions[i].from == from && transitions[i].on == on {
        return Some(transitions[i]);
      }
    }
    t := None;
  }

  lemma {:induction false} FindMeans(transitions: seq<Transition>, from: string, on: string)
    ensures Find(transitions, from, on).Some? ==>
              var t := Find(transitions, from, on).value; t in transitions && t.from == from && t.on == on
    ensures Find(transitions, from, on).None? ==> forall t :: t in transitions ==> !(t.from == from && t.on == on)
  {
    if transitions == [] {
    } else {
      FindMeans(transitions[1..], from, on);
      assert forall t :: t in transitions <==> t == transitions[0] || t in transitions[1..];
    }
  }

  /** In a validated specification the transition found is the only candidate. */
  lemma FindUnique(spec: Spec, from: string, on: string, t: Transition)
    requires WellFormed(spec)
    ensures Find(spec.transitions, from, on) == Some(t) <==> t in spec.transitions && t.from == from && t.on == on
  {
    FindMeans(spec.transitions, from, on);
    if t in spec.transitions && t.from == from && t.on == on {
      var u := Find(spec.transitions, from, on).value;
      var i :| 0 <= i < |spec.transitions| && spec.transitions[i] == t;
      var j :| 0 <= j < |spec.transitions| && spec.transitions[j] == u;
      assert i == j;
    }
  }

  function Decimal(n: nat): string
  {
    if n < 10 then [(n as char + '0')] else Decimal(n / 10) + [(n % 10) as char + '0']
  }

  function EffectId(eventId: string, i: nat): string
  {
    eventId + ":effect:" + Decimal(i)
  }

  function DecidedEffects(templates: seq<EffectTemplate>, eventId: string): (r: seq<DecidedEffect>)
    ensures |r| == |templates|
  {
    seq(|templates|, i requires 0 <= i < |templates| =>
      DecidedEffect(EffectId(eventId, i), templates[i].kind, templates[i].params))
  }

  predicate AllAllowed(templates: seq<EffectTemplate>, allowlist: seq<string>)
  {
    forall i :: 0 <= i < |templates| ==> templates[i].kind in allowlist
  }

  method BuildEffects(templates: seq<EffectTemplate>, allowlist: seq<string>, eventId: string)
    returns (out: seq<DecidedEffect>, skipped: nat)
    ensures |out| + skipped == |templates|
    ensures skipped == 0 <==> AllAllowed(templates, allowlist)
    ensures skipped == 0 ==> out == DecidedEffects(templates, eventId)
  {
    out, skipped := [], 0;
    for i := 0 to |templates|
      invariant |out| + skipped == i
      invariant skipped == 0 <==> forall k :: 0 <= k < i ==> templates[k].kind in allowlist
      invariant skipped == 0 ==> out == DecidedEffects(templates, eventId)[..i]
    {
      if templates[i].kind !in allowlist {
        skipped := skipped + 1;
        continue;
      }
      out := out + [DecidedEffect(EffectId(eventId, i), templates[i].kind, templates[i].params)];
    }
  }

  ghost predicate GuardPasses(guard: Option<Pred>, context: Json, payload: Json, maxOps: nat)
  {
    guard.Some? ==> Passes(guard.value, GuardRoot(context, payload), maxOps)
  }

  ghost function DecisionFor(spec: Spec, inst: Instance, input: Input): Decision
  {
    var t := Find(spec.transitions, inst.state, input.kind);
    if inst.status != Running then Refuse(InstanceNotRunnable)
    else if t.None? then Refuse(NoTransition)
    else if !GuardPasses(t.value.guard, inst.context, input.payload, spec.limits.maxGuardOps) then Refuse(GuardFailed)
    else if !AllAllowed(t.value.effects, spec.allowlist) then Refuse(InvalidInput)
    else if |t.value.effects| > spec.limits.maxEffects then Refuse(InvalidInput)
    else if |t.value.nextInputs| > spec.limits.maxNextInputs then Refuse(InvalidInput)
    else Take(t.value, DecidedEffects(t.value.effects, input.eventId))
  }

  method Decide(spec: Spec, inst: Instance, input: Input) returns (d: Decision)
    ensures d == DecisionFor(spec, inst, input)
  {
    if inst.status != Running {
      return Refuse(InstanceNotRunnable);
    }
    var found := FindTransition(spec.transitions, inst.state, input.kind);
    if found.None? {
      return Refuse(NoTransition);
    }
    var t := found.value;
    if t.guard.Some? {
      var ok, _ := EvaluatePredicate(t.guard.value, inst.context, input.payload, spec.limits.maxGuardOps);
      if !ok {
        return Refuse(GuardFailed);
      }
    }
    var effects, skipped := BuildEffects(t.effects, spec.allowlist, input.eventId);
    if skipped > 0 {
      return Refuse(InvalidInput);
    }
    if |effects| > spec.limits.maxEffects || |t.nextInputs| > spec.limits.maxNextInputs {
      return Refuse(InvalidInput);
    }
    d := Take(t, effects);
  }

  /** On a validated specification: taken exactly when running, with its one transition, its guard true within budget
      and its outputs within the limits; effect types never stand in the way. */
  lemma TakenIff(spec: Spec, inst: Instance, input: Input, t: Transition)
    requires WellFormed(spec)
    ensures DecisionFor(spec, inst, input) == Take(t, DecidedEffects(t.effects, input.eventId)) <==>
            && inst.status == Running
            && t in spec.transitions && t.from == inst.state && t.on == input.kind
            && GuardPasses(t.guard, inst.context, input.payload, spec.limits.maxGuardOps)
            && |t.effects| <= spec.limits.maxEffects && |t.nextInputs| <= spec.limits.maxNextInputs
  {
    FindMeans(spec.transitions, inst.state, input.kind);
    FindUnique(spec, inst.state, input.kind, t);
    if t in spec.transitions {
      assert AllAllowed(t.effects, spec.allowlist);
    }
  }

  // ----- queued work

  function NextTask(commitId: string, eventId: string, at: int, ni: NextInput, i: nat): Task
  {
    Task(NextId(commitId, i), commitId, eventId, at + ni.delayMs, ni.kind, ni.payload)
  }

  function TimeoutTask(commitId: string, eventId: string, at: int, rule: TimeoutRule, i: nat): Task
  {
    Task(TimeoutId(commitId, i), commitId, eventId, at + rule.afterMs, rule.emit.kind, rule.emit.payload)
  }

  function NextTasks(commitId: string, eventId: string, at: int, inputs: seq<NextInput>): seq<Task>
  {
    if inputs == [] then []
    else
      var n := |inputs| - 1;
      NextTasks(commitId, eventId, at, inputs[..n]) + [NextTask(commitId, eventId, at, inputs[n], n)]
  }

  function TimeoutTasks(commitId: string, eventId: string, at: int, rules: seq<TimeoutRule>, state: string): seq<Task>
  {
    if rules == [] then []
    else
      var n := |rules| - 1;
      TimeoutTasks(commitId, eventId, at, rules[..n], state) +
      if rules[n].inState == state then [TimeoutTask(commitId, eventId, at, rules[n], n)] else []
  }

  function TasksOf(spec: Spec, eventId: string, commitId: string, at: int, inputs: seq<NextInput>,
                   state: string): seq<Task>
  {
    NextTasks(commitId, eventId, at, inputs) + TimeoutTasks(commitId, eventId, at, spec.timeouts, state)
  }

  method BuildPendingTasks(spec: Spec, eventId: string, commitId: string, at: int, inputs: seq<NextInput>,
                           state: string)
    returns (tasks: seq<Task>)
    ensures tasks == TasksOf(spec, eventId, commitId, at, inputs, state)
  {
    tasks := [];
    for i := 0 to |inputs|
      invariant tasks == NextTasks(commitId, eventId, at, inputs[..i])
    {
      assert inputs[..i + 1][..i] == inputs[..i];
      tasks := tasks + [NextTask(commitId, eventId, at, inputs[i], i)];
    }
    assert inputs[..|inputs|] == inputs;
    var rules := spec.timeouts;
    ghost var first := tasks;
    for i := 0 to |rules|
      invariant tasks == first + TimeoutTasks(commitId, eventId, at, rules[..i], state)
    {
      assert rules[..i + 1][..i] == rules[..i];
      if rules[i].inState != state {
        continue;
      }
      tasks := tasks + [TimeoutTask(commitId, eventId, at, rules[i], i)];
    }
    assert rules[..|rules|] == rules;
  }
  // ----- ids

  lemma {:induction false} DecimalInjective(m: nat, n: nat)
    ensures Decimal(m) == Decimal(n) ==> m == n
    ensures |Decimal(m)| >= 1 && (m >= 10 ==> |Decimal(m)| >= 2)
    decreases m
  {
    if m >= 10 {
      DecimalInjective(m / 10, if n >= 10 then n / 10 else 0);
      if n >= 10 && Decimal(m) == Decimal(n) {
        var a, b := Decimal(m), Decimal(n);
        assert a[..|a| - 1] == Decimal(m / 10) && b[..|b| - 1] == Decimal(n / 10);
        assert a[|a| - 1] == b[|b| - 1];
      }
    } else if n >= 10 {
      DecimalLength(n);
    }
  }

  lemma {:induction false} DecimalLength(n: nat)
    ensures |Decimal(n)| >= if n >= 10 then 2 else 1
  {
    if n >= 10 {
      DecimalLength(n / 10);
    }
  }

  /** The number a string of digits stands for. */
  function NumberOf(digits: string): int
  {
    if digits == "" then 0
    else 10 * NumberOf(digits[..|digits| - 1]) + (digits[|digits| - 1] as int - '0' as int)
  }

  /** Digits only, no leading zero, and the number itself. */
  lemma {:induction false} DecimalMeans(n: nat)
    ensures NumberOf(Decimal(n)) == n
    ensures forall i :: 0 <= i < |Decimal(n)| ==> '0' <= Decimal(n)[i] <= '9'
    ensures |Decimal(n)| > 0 && (n > 0 ==> Decimal(n)[0] != '0')
  {
    if n >= 10 {
      DecimalMeans(n / 10);
      assert Decimal(n)[..|Decimal(n)| - 1] == Decimal(n / 10);
    } else {
      assert Decimal(n)[..0] == "";
    }
  }

  function NextId(commitId: string, i: nat): string
  {
    commitId + ":next:" + Decimal(i)
  }

  function TimeoutId(commitId: string, i: nat): string
  {
    commitId + ":timeout:" + Decimal(i)
  }

  lemma IdsDiffer(commitId: string, i: nat, j: nat)
    ensures NextId(commitId, i) != TimeoutId(commitId, j)
    ensures i != j ==> NextId(commitId, i) != NextId(commitId, j) && TimeoutId(commitId, i) != TimeoutId(commitId, j)
  {
    var n := |commitId|;
    assert NextId(commitId, i)[n + 1] == 'n' && TimeoutId(commitId, j)[n + 1] == 't';
    assert NextId(commitId, i)[n + 6..] == Decimal(i) && NextId(commitId, j)[n + 6..] == Decimal(j);
    assert TimeoutId(commitId, i)[n + 9..] == Decimal(i) && TimeoutId(commitId, j)[n + 9..] == Decimal(j);
    DecimalInjective(i, j);
  }

  ghost predicate DistinctIds(tasks: seq<Task>)
  {
    forall a, b :: 0 <= a < b < |tasks| ==> tasks[a].taskId != tasks[b].taskId
  }

  lemma {:induction false} NextIds(commitId: string, eventId: string, at: int, inputs: seq<NextInput>)
    ensures var ts := NextTasks(commitId, eventId, at, inputs);
            |ts| == |inputs| && forall a :: 0 <= a < |ts| ==> ts[a] == NextTask(commitId, eventId, at, inputs[a], a)
  {
    if inputs == [] {
    } else {
      NextIds(commitId, eventId, at, inputs[..|inputs| - 1]);
    }
  }

  ghost predicate TimeoutIdBelow(commitId: string, id: string, n: nat)
  {
    exists i :: 0 <= i < n && id == TimeoutId(commitId, i)
  }

  lemma {:induction false} TimeoutIds(commitId: string, eventId: string, at: int, rules: seq<TimeoutRule>,
                                      state: string)
    ensures var ts := TimeoutTasks(commitId, eventId, at, rules, state);
            && DistinctIds(ts)
            && forall a :: 0 <= a < |ts| ==> TimeoutIdBelow(commitId, ts[a].taskId, |rules|)
  {
    if rules == [] {
    } else {
      var n := |rules| - 1;
      var front, ts := TimeoutTasks(commitId, eventId, at, rules[..n], state), TimeoutTasks(commitId, eventId, at,
          rules, state);
      TimeoutIds(commitId, eventId, at, rules[..n], state);
      forall a | 0 <= a < |front|
        ensures front[a].taskId != TimeoutId(commitId, n)
      {
        assert TimeoutIdBelow(commitId, front[a].taskId, n);
        var i :| 0 <= i < n && front[a].taskId == TimeoutId(commitId, i);
        IdsDiffer(commitId, i, n);
      }
      forall a | 0 <= a < |ts|
        ensures TimeoutIdBelow(commitId, ts[a].taskId, |rules|)
      {
        if a < |front| {
          assert ts[a] == front[a] && TimeoutIdBelow(commitId, front[a].taskId, n);
        } else {
          assert ts[a].taskId == TimeoutId(commitId, n);
        }
      }
    }
  }

  /** A task for rule `i`, which is one of the state's. */
  ghost predicate OfRule(commitId: string, eventId: string, at: int, rules: seq<TimeoutRule>, state: string, i: int,
                         task: Task)
  {
    0 <= i < |rules| && rules[i].inState == state && task == TimeoutTask(commitId, eventId, at, rules[i], i)
  }

  ghost predicate OfSomeRule(commitId: string, eventId: string, at: int, rules: seq<TimeoutRule>, state: string,
                             task: Task)
  {
    exists i :: OfRule(commitId, eventId, at, rules, state, i, task)
  }

  /** The state's rules, and no others, have their tasks. */
  lemma {:induction false} TimeoutsMatch(commitId: string, eventId: string, at: int, rules: seq<TimeoutRule>,
                                         state: string)
    ensures var ts := TimeoutTasks(commitId, eventId, at, rules, state);
            && (forall i :: 0 <= i < |rules| && rules[i].inState == state ==>
                  TimeoutTask(commitId, eventId, at, rules[i], i) in ts)
            && (forall task :: task in ts ==> OfSomeRule(commitId, eventId, at, rules, state, task))
  {
    if rules == [] {
    } else {
      var n := |rules| - 1;
      var front := TimeoutTasks(commitId, eventId, at, rules[..n], state);
      var ts := TimeoutTasks(commitId, eventId, at, rules, state);
      TimeoutsMatch(commitId, eventId, at, rules[..n], state);
      forall i | 0 <= i < |rules| && rules[i].inState == state
        ensures TimeoutTask(commitId, eventId, at, rules[i], i) in ts
      {
        if i < n {
          assert rules[..n][i] == rules[i];
        }
      }
      forall task | task in ts
        ensures OfSomeRule(commitId, eventId, at, rules, state, task)
      {
        if task in front {
          assert OfSomeRule(commitId, eventId, at, rules[..n], state, task);
          var i :| OfRule(commitId, eventId, at, rules[..n], state, i, task);
          assert OfRule(commitId, eventId, at, rules, state, i, task);
        } else {
          assert OfRule(commitId, eventId, at, rules, state, n, task);
        }
      }
    }
  }

  /** The tasks of one commit never share an id. */
  lemma TaskIdsDistinct(spec: Spec, eventId: string, commitId: string, at: int, inputs: seq<NextInput>, state: string)
    ensures DistinctIds(TasksOf(spec, eventId, commitId, at, inputs, state))
  {
    var xs, ys := NextTasks(commitId, eventId, at, inputs), TimeoutTasks(commitId, eventId, at, spec.timeouts, state);
    var ts := xs + ys;
    NextIds(commitId, eventId, at, inputs);
    TimeoutIds(commitId, eventId, at, spec.timeouts, state);
    forall a, b | 0 <= a < b < |ts|
      ensures ts[a].taskId != ts[b].taskId
    {
      if b < |xs| {
        IdsDiffer(commitId, a, b);
      } else if a < |xs| {
        assert TimeoutIdBelow(commitId, ys[b - |xs|].taskId, |spec.timeouts|);
        var j :| 0 <= j < |spec.timeouts| && ys[b - |xs|].taskId == TimeoutId(commitId, j);
        IdsDiffer(commitId, a, j);
      }
    }
  }
}

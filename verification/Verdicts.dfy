/** What the engine does with one input: its verdict, the record that follows from it, and what that record means. */
module Verdicts {
  import opened Options
  import opened Guard
  import opened SpecValidation
  import opened Projections
  import opened Worklists
  import opened Engine
  import opened WorkflowRuns

  /** What the environment says about one input: sizes, quota, the patched context and a new commit id. */
  datatype Facts = Facts(payloadBytes: nat, quota: Option<string>, patched: Json, contextBytes: nat, commitId: string)

  datatype Verdict = Dedupe | Reject(reason: Reason) | Accept(transition: Transition, effects: seq<DecidedEffect>)

  ghost function VerdictFor(spec: Spec, m: Maps, input: Input, facts: Facts, now: int): Verdict
  {
    var inst := Current(spec, m);
    if !Matches(spec, inst) then Reject(SpecMismatch)
    else if !Forgotten(m.seen, input.eventId, now) then Dedupe
    else if facts.payloadBytes > spec.limits.maxPayloadBytes then Reject(PayloadTooLarge)
    else if facts.quota.Some? then Reject(Quota(facts.quota.value))
    else
      match DecisionFor(spec, inst, input)
      case Refuse(reason) => Reject(reason)
      case Take(t, effects) =>
        if facts.contextBytes > spec.limits.maxContextBytes then Reject(ContextTooLarge) else Accept(t, effects)
  }

  function Moved(inst: Instance, t: Transition, patched: Json): Instance
  {
    inst.(state := t.to, context := if t.patch.Some? then patched else inst.context, version := inst.version + 1)
  }

  function PendingEffects(effects: seq<DecidedEffect>, commitId: string, at: int): seq<Effect>
  {
    seq(|effects|, i requires 0 <= i < |effects| =>
      Effect(effects[i].effectId, effects[i].kind, effects[i].params, commitId, at))
  }

  /** The record an accepted input is committed with. */
  function CommitRecord(spec: Spec, inst: Instance, input: Input, facts: Facts, t: Transition,
                        effects: seq<DecidedEffect>, at: int): Record
  {
    Commit(facts.commitId, input.eventId, at, Moved(inst, t, facts.patched),
           PendingEffects(effects, facts.commitId, at),
           TasksOf(spec, input.eventId, facts.commitId, at, t.nextInputs, t.to))
  }

  /** The record a verdict asks for may be written at the time `at`; a deduplicated event has been answered. */
  ghost predicate LegalVerdict(spec: Spec, journal: seq<Record>, input: Input, facts: Facts, v: Verdict, at: int)
  {
    var inst := Current(spec, Replayed(journal));
    match v
    case Dedupe => Answered(journal, input.eventId)
    case Reject(reason) => LegalAppend(spec, journal, Rejection(input.eventId, at, reason, inst))
    case Accept(t, effects) => LegalAppend(spec, journal, CommitRecord(spec, inst, input, facts, t, effects, at))
  }

  lemma VerdictIsLegal(spec: Spec, journal: seq<Record>, input: Input, facts: Facts, now: int, at: int)
    requires NotBefore(journal, at) && now <= at
    ensures LegalVerdict(spec, journal, input, facts, VerdictFor(spec, Replayed(journal), input, facts, now), at)
  {
    var m := Replayed(journal);
    var inst := Current(spec, m);
    var v := VerdictFor(spec, m, input, facts, now);
    SeenIsLastAnswer(journal, input.eventId);
    if v.Accept? {
      FindMeans(spec.transitions, inst.state, input.kind);
      assert Steps(spec, inst, Moved(inst, v.transition, facts.patched), v.transition);
    }
  }

  // ----- what a commit leaves behind

  /** Effect `i` of the transition is pending under its own id, as its template says. */
  ghost predicate EffectIsPending(after: Maps, input: Input, commitId: string, at: int, e: EffectTemplate, i: nat)
  {
    var id := input.eventId + ":effect:" + Decimal(i);
    Get(after.effects, id) == Some(Effect(id, e.kind, e.params, commitId, at))
  }

  /** Next input `i` of the transition is pending under its own id, due after its delay. */
  ghost predicate NextIsPending(after: Maps, input: Input, commitId: string, at: int, ni: NextInput, i: nat)
  {
    var id := commitId + ":next:" + Decimal(i);
    Get(after.tasks, id) == Some(Task(id, commitId, input.eventId, at + ni.delayMs, ni.kind, ni.payload))
  }

  /** Timeout rule `i` of the specification is pending under its own id, due after its time. */
  ghost predicate TimeoutIsPending(after: Maps, input: Input, commitId: string, at: int, rule: TimeoutRule, i: nat)
  {
    var id := commitId + ":timeout:" + Decimal(i);
    Get(after.tasks, id) ==
      Some(Task(id, commitId, input.eventId, at + rule.afterMs, rule.emit.kind, rule.emit.payload))
  }

  ghost predicate IsEffectId(x: string, eventId: string, n: nat)
  {
    exists i: nat :: i < n && x == EffectId(eventId, i)
  }

  ghost predicate IsTaskId(x: string, commitId: string, nexts: nat, rules: seq<TimeoutRule>, state: string)
  {
    || (exists i: nat :: i < nexts && x == NextId(commitId, i))
    || (exists i: nat :: i < |rules| && rules[i].inState == state && x == TimeoutId(commitId, i))
  }

  /** The lists have the work the transition asks for, and are otherwise as before. */
  ghost predicate QueuesWork(spec: Spec, before: Maps, after: Maps, input: Input, commitId: string, at: int,
                             t: Transition)
  {
    && (forall i {:trigger t.effects[i]} ::
          0 <= i < |t.effects| ==> EffectIsPending(after, input, commitId, at, t.effects[i], i))
    && (forall i {:trigger t.nextInputs[i]} ::
          0 <= i < |t.nextInputs| ==> NextIsPending(after, input, commitId, at, t.nextInputs[i], i))
    && (forall i {:trigger spec.timeouts[i]} ::
          0 <= i < |spec.timeouts| && spec.timeouts[i].inState == t.to ==>
            TimeoutIsPending(after, input, commitId, at, spec.timeouts[i], i))
    && (forall x :: Get(after.effects, x) == Get(before.effects, x) || IsEffectId(x, input.eventId, |t.effects|))
    && (forall x :: Get(after.tasks, x) == Get(before.tasks, x)
                    || IsTaskId(x, commitId, |t.nextInputs|, spec.timeouts, t.to))
  }

  /** The transition was open to the input: everything that is checked before it is taken. */
  ghost predicate Open(spec: Spec, inst: Instance, input: Input, facts: Facts, t: Transition)
  {
    && inst.specId == spec.specId && inst.specVersion == spec.specVersion && inst.status == Running
    && facts.payloadBytes <= spec.limits.maxPayloadBytes && facts.quota.None?
    && t in spec.transitions && t.from == inst.state && t.on == input.kind
    && (t.guard.Some? ==> Passes(t.guard.value, GuardRoot(inst.context, input.payload), spec.limits.maxGuardOps))
    && (forall e :: e in t.effects ==> e.kind in spec.allowlist)
    && |t.effects| <= spec.limits.maxEffects && |t.nextInputs| <= spec.limits.maxNextInputs
    && facts.contextBytes <= spec.limits.maxContextBytes
  }

  /** `t` was open and is taken: state, context and version move on, and its work is queued. */
  ghost predicate TakenBy(spec: Spec, before: Maps, after: Maps, input: Input, facts: Facts, at: int, t: Transition)
  {
    var inst := Current(spec, before);
    && Open(spec, inst, input, facts, t)
    && after.instance == Some(Instance(inst.specId, inst.specVersion, t.to,
                                       if t.patch.Some? then facts.patched else inst.context,
                                       inst.version + 1, inst.status))
    && Get(after.seen, input.eventId) == Some(at)
    && QueuesWork(spec, before, after, input, facts.commitId, at, t)
  }

  lemma EffectIdsDiffer(eventId: string, i: nat, j: nat)
    requires i != j
    ensures EffectId(eventId, i) != EffectId(eventId, j)
  {
    var n := |eventId| + |":effect:"|;
    assert EffectId(eventId, i)[n..] == Decimal(i) && EffectId(eventId, j)[n..] == Decimal(j);
    DecimalInjective(i, j);
  }

  lemma EffectsQueued(before: Entries<Effect>, templates: seq<EffectTemplate>, eventId: string, commitId: string,
                      at: int)
    ensures var effects := PendingEffects(DecidedEffects(templates, eventId), commitId, at);
            var after := PutAll(before, EffectKey, effects);
            && (forall i {:trigger templates[i]} :: 0 <= i < |templates| ==>
                  Get(after, EffectId(eventId, i)) ==
                    Some(Effect(EffectId(eventId, i), templates[i].kind, templates[i].params, commitId, at)))
            && (forall x :: Get(after, x) == Get(before, x) || IsEffectId(x, eventId, |templates|))
  {
    var effects := PendingEffects(DecidedEffects(templates, eventId), commitId, at);
    forall i | 0 <= i < |templates|
      ensures Get(PutAll(before, EffectKey, effects), EffectId(eventId, i)) ==
              Some(Effect(EffectId(eventId, i), templates[i].kind, templates[i].params, commitId, at))
    {
      forall j | i < j < |effects|
        ensures EffectKey(effects[j]) != EffectKey(effects[i])
      {
        EffectIdsDiffer(eventId, i, j);
      }
      GetPutLast(before, EffectKey, effects, i);
    }
    forall x | !IsEffectId(x, eventId, |templates|)
      ensures Get(PutAll(before, EffectKey, effects), x) == Get(before, x)
    {
      assert forall j :: 0 <= j < |effects| ==> EffectKey(effects[j]) == EffectId(eventId, j);
      GetPutOthers(before, EffectKey, effects, x);
    }
  }

  /** Each task of a commit is put under its own id, and nothing else is touched. */
  lemma TaskQueued(before: Entries<Task>, tasks: seq<Task>, task: Task)
    requires DistinctIds(tasks) && task in tasks
    ensures Get(PutAll(before, TaskKey, tasks), task.taskId) == Some(task)
  {
    var a :| 0 <= a < |tasks| && tasks[a] == task;
    GetPutLast(before, TaskKey, tasks, a);
  }

  lemma NextQueued(spec: Spec, before: Entries<Task>, input: Input, commitId: string, at: int,
                   inputs: seq<NextInput>, state: string, i: nat)
    requires i < |inputs|
    ensures Get(PutAll(before, TaskKey, TasksOf(spec, input.eventId, commitId, at, inputs, state)),
                NextId(commitId, i)) == Some(NextTask(commitId, input.eventId, at, inputs[i], i))
  {
    var tasks := TasksOf(spec, input.eventId, commitId, at, inputs, state);
    NextIds(commitId, input.eventId, at, inputs);
    assert tasks[i] == NextTask(commitId, input.eventId, at, inputs[i], i);
    TaskIdsDistinct(spec, input.eventId, commitId, at, inputs, state);
    TaskQueued(before, tasks, tasks[i]);
  }

  lemma TimeoutQueued(spec: Spec, before: Entries<Task>, input: Input, commitId: string, at: int,
                      inputs: seq<NextInput>, state: string, i: nat)
    requires i < |spec.timeouts| && spec.timeouts[i].inState == state
    ensures Get(PutAll(before, TaskKey, TasksOf(spec, input.eventId, commitId, at, inputs, state)),
                TimeoutId(commitId, i)) == Some(TimeoutTask(commitId, input.eventId, at, spec.timeouts[i], i))
  {
    var tasks := TasksOf(spec, input.eventId, commitId, at, inputs, state);
    TimeoutsMatch(commitId, input.eventId, at, spec.timeouts, state);
    TaskIdsDistinct(spec, input.eventId, commitId, at, inputs, state);
    TaskQueued(before, tasks, TimeoutTask(commitId, input.eventId, at, spec.timeouts[i], i));
  }

  lemma OtherTasksStay(spec: Spec, before: Entries<Task>, input: Input, commitId: string, at: int,
                       inputs: seq<NextInput>, state: string, x: string)
    requires !IsTaskId(x, commitId, |inputs|, spec.timeouts, state)
    ensures Get(PutAll(before, TaskKey, TasksOf(spec, input.eventId, commitId, at, inputs, state)), x) == Get(before, x)
  {
    var tasks := TasksOf(spec, input.eventId, commitId, at, inputs, state);
    forall b | 0 <= b < |tasks|
      ensures TaskKey(tasks[b]) != x
    {
      TaskIdOf(spec, input, commitId, at, inputs, state, tasks[b]);
    }
    GetPutOthers(before, TaskKey, tasks, x);
  }

  lemma TaskIdOf(spec: Spec, input: Input, commitId: string, at: int, inputs: seq<NextInput>, state: string,
                 task: Task)
    requires task in TasksOf(spec, input.eventId, commitId, at, inputs, state)
    ensures IsTaskId(task.taskId, commitId, |inputs|, spec.timeouts, state)
  {
    var nexts := NextTasks(commitId, input.eventId, at, inputs);
    NextIds(commitId, input.eventId, at, inputs);
    TimeoutsMatch(commitId, input.eventId, at, spec.timeouts, state);
    if task in nexts {
      var a :| 0 <= a < |nexts| && nexts[a] == task;
      assert task.taskId == NextId(commitId, a);
    } else {
      assert OfSomeRule(commitId, input.eventId, at, spec.timeouts, state, task);
      var i :| OfRule(commitId, input.eventId, at, spec.timeouts, state, i, task);
      assert task.taskId == TimeoutId(commitId, i);
    }
  }

  /** The work of a commit reaches the pending lists. */
  lemma CommitQueues(spec: Spec, m: Maps, input: Input, facts: Facts, t: Transition, at: int, rec: Record)
    requires rec == CommitRecord(spec, Current(spec, m), input, facts, t, DecidedEffects(t.effects, input.eventId), at)
    ensures QueuesWork(spec, m, Update(m, rec), input, facts.commitId, at, t)
  {
    var after, id := Update(m, rec), facts.commitId;
    EffectsQueued(m.effects, t.effects, input.eventId, id, at);
    forall i | 0 <= i < |t.nextInputs|
      ensures NextIsPending(after, input, id, at, t.nextInputs[i], i)
    {
      NextQueued(spec, m.tasks, input, id, at, t.nextInputs, t.to, i);
    }
    forall i | 0 <= i < |spec.timeouts| && spec.timeouts[i].inState == t.to
      ensures TimeoutIsPending(after, input, id, at, spec.timeouts[i], i)
    {
      TimeoutQueued(spec, m.tasks, input, id, at, t.nextInputs, t.to, i);
    }
    forall x
      ensures Get(after.tasks, x) == Get(m.tasks, x) || IsTaskId(x, id, |t.nextInputs|, spec.timeouts, t.to)
    {
      if !IsTaskId(x, id, |t.nextInputs|, spec.timeouts, t.to) {
        OtherTasksStay(spec, m.tasks, input, id, at, t.nextInputs, t.to, x);
      }
    }
  }

  /** An input is accepted only with an open transition, and its effects are those of the templates. */
  lemma AcceptedIsOpen(spec: Spec, m: Maps, input: Input, facts: Facts, now: int)
    requires VerdictFor(spec, m, input, facts, now).Accept?
    ensures var v := VerdictFor(spec, m, input, facts, now);
            && Open(spec, Current(spec, m), input, facts, v.transition)
            && v.effects == DecidedEffects(v.transition.effects, input.eventId)
  {
    var inst := Current(spec, m);
    FindMeans(spec.transitions, inst.state, input.kind);
    var t := VerdictFor(spec, m, input, facts, now).transition;
    forall e | e in t.effects
      ensures e.kind in spec.allowlist
    {
      var i :| 0 <= i < |t.effects| && t.effects[i] == e;
    }
  }

  /** From the verdict to the lists: an accepted input's record takes the transition with all its work. */
  lemma CommitTakes(spec: Spec, m: Maps, input: Input, facts: Facts, now: int, at: int)
    requires VerdictFor(spec, m, input, facts, now).Accept?
    ensures var v := VerdictFor(spec, m, input, facts, now);
            var rec := CommitRecord(spec, Current(spec, m), input, facts, v.transition, v.effects, at);
            TakenBy(spec, m, Update(m, rec), input, facts, at, v.transition)
  {
    var v := VerdictFor(spec, m, input, facts, now);
    AcceptedIsOpen(spec, m, input, facts, now);
    var rec := CommitRecord(spec, Current(spec, m), input, facts, v.transition, v.effects, at);
    CommitQueues(spec, m, input, facts, v.transition, at, rec);
    GetPut(m.seen, input.eventId, at, input.eventId);
  }

  // ----- what a refusal means

  ghost predicate Candidate(spec: Spec, inst: Instance, input: Input, t: Transition)
  {
    t in spec.transitions && t.from == inst.state && t.on == input.kind
  }

  /** What each reason to refuse says about the input. */
  ghost predicate RefusedFor(spec: Spec, inst: Instance, input: Input, facts: Facts, reason: Reason)
  {
    match reason
    case SpecMismatch => inst.specId != spec.specId || inst.specVersion != spec.specVersion
    case PayloadTooLarge => facts.payloadBytes > spec.limits.maxPayloadBytes
    case Quota(text) => facts.quota == Some(text)
    case InstanceNotRunnable => inst.status != Running
    case NoTransition => forall t :: t in spec.transitions ==> !(t.from == inst.state && t.on == input.kind)
    case GuardFailed =>
      exists t :: Candidate(spec, inst, input, t) && t.guard.Some?
                  && !Passes(t.guard.value, GuardRoot(inst.context, input.payload), spec.limits.maxGuardOps)
    case InvalidInput =>
      exists t :: Candidate(spec, inst, input, t)
                  && (|t.effects| > spec.limits.maxEffects || |t.nextInputs| > spec.limits.maxNextInputs
                      || exists e :: e in t.effects && e.kind !in spec.allowlist)
    case ContextTooLarge => facts.contextBytes > spec.limits.maxContextBytes
    case StoreAppendFailed => false
  }

  lemma RefusalMeans(spec: Spec, m: Maps, input: Input, facts: Facts, now: int)
    requires VerdictFor(spec, m, input, facts, now).Reject?
    ensures RefusedFor(spec, Current(spec, m), input, facts, VerdictFor(spec, m, input, facts, now).reason)
  {
    var inst := Current(spec, m);
    FindMeans(spec.transitions, inst.state, input.kind);
    var found := Find(spec.transitions, inst.state, input.kind);
    if found.Some? {
      assert Candidate(spec, inst, input, found.value);
    }
  }

  // ----- when an input is accepted, and when it is not looked at

  /** On a validated specification an input is accepted exactly when a transition is open and the event is not known. */
  lemma AcceptedIff(spec: Spec, m: Maps, input: Input, facts: Facts, now: int, t: Transition)
    requires WellFormed(spec)
    ensures VerdictFor(spec, m, input, facts, now) == Accept(t, DecidedEffects(t.effects, input.eventId)) <==>
            Open(spec, Current(spec, m), input, facts, t) && Forgotten(m.seen, input.eventId, now)
  {
    var inst := Current(spec, m);
    var v := VerdictFor(spec, m, input, facts, now);
    if v == Accept(t, DecidedEffects(t.effects, input.eventId)) {
      AcceptedIsOpen(spec, m, input, facts, now);
    }
    if Open(spec, inst, input, facts, t) {
      TakenIff(spec, inst, input, t);
    }
  }

  /** The last answer to the event is at most seven days old. */
  ghost predicate AnsweredLately(journal: seq<Record>, eventId: string, now: int)
  {
    exists k :: LastAnswer(journal, eventId, k) && now - journal[k].recordedAt <= 604_800_000
  }

  /** An input is deduplicated exactly when its event was answered within the last seven days. */
  lemma DedupedIff(spec: Spec, journal: seq<Record>, input: Input, facts: Facts, now: int)
    ensures VerdictFor(spec, Replayed(journal), input, facts, now) == Dedupe <==>
            Matches(spec, Current(spec, Replayed(journal))) && AnsweredLately(journal, input.eventId, now)
  {
    var id := input.eventId;
    SeenIsLastAnswer(journal, id);
    var seen := Get(Replayed(journal).seen, id);
    if seen.Some? {
      var k :| LastAnswer(journal, id, k) && journal[k].recordedAt == seen.value;
      forall j | LastAnswer(journal, id, j)
        ensures j == k
      {
      }
    }
  }
}

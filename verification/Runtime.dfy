/**
 * The engine at work on one workflow's journal: one critical section at a time, over a store that may fail or crash.
 */
module Runtime {
  import opened Options
  import opened Guard
  import opened SpecValidation
  import opened Projections
  import opened Engine
  import opened WorkflowRuns
  import opened Verdicts

  datatype HandleResult = Committed | Deduped | Rejected(reason: Reason) | Crashed

  /** What the caller of an append learns. */
  datatype Report = Written | Duplicate | Failure | Crash

  /** How the store is going to behave: what it reports, and whether a write it does not confirm took place. */
  datatype Reply = Reply(report: Report, written: bool)

  /** The record may be one too many for its event. */
  predicate IsRepeat(journal: seq<Record>, rec: Record)
  {
    Answers(rec) && Answered(journal, rec.eventId)
  }

  /** What the caller learns; only an answered event is a duplicate. */
  function ReportOf(journal: seq<Record>, rec: Record, reply: Reply): Report
  {
    if reply.report.Duplicate? && !IsRepeat(journal, rec) then Failure else reply.report
  }

  /** The journal afterwards. */
  function Appended(journal: seq<Record>, rec: Record, reply: Reply): seq<Record>
  {
    match ReportOf(journal, rec, reply)
    case Written => journal + [rec]
    case Duplicate => journal
    case _ => if reply.written then journal + [rec] else journal
  }

  /** What the caller says in turn, given what it has to say about a record that was written. */
  function Answer(report: Report, success: HandleResult): HandleResult
  {
    match report
    case Written => success
    case Duplicate => Deduped
    case Failure => Rejected(StoreAppendFailed)
    case Crash => Crashed
  }

  /** The call hands the one record to the store, and says what follows from the store's behaviour. */
  ghost predicate Handled(before: seq<Record>, after: seq<Record>, rec: Record, success: HandleResult, reply: Reply,
                          r: HandleResult)
    requires Answers(rec)
  {
    after == Appended(before, rec, reply) && r == Answer(ReportOf(before, rec, reply), success)
  }

  ghost predicate HandledAs(spec: Spec, before: seq<Record>, input: Input, facts: Facts, v: Verdict, at: int,
                            reply: Reply, after: seq<Record>, r: HandleResult)
  {
    var inst := Current(spec, Replayed(before));
    match v
    case Dedupe => after == before && r == Deduped
    case Reject(reason) =>
      Handled(before, after, Rejection(input.eventId, at, reason, inst), Rejected(reason), reply, r)
    case Accept(t, effects) =>
      Handled(before, after, CommitRecord(spec, inst, input, facts, t, effects, at), Committed, reply, r)
  }

  /** The journal gained nothing, or one answer to the input, which means what it says. */
  ghost predicate AnsweredBy(spec: Spec, before: seq<Record>, input: Input, facts: Facts, at: int, after: seq<Record>)
  {
    after == before ||
    (&& |after| == |before| + 1 && before <= after
     && var rec, m := after[|before|], Replayed(before);
        && Answers(rec) && rec.eventId == input.eventId && rec.recordedAt == at
        && (rec.Commit? ==>
              rec.commitId == facts.commitId && exists t :: TakenBy(spec, m, Replayed(after), input, facts, at, t))
        && (rec.Rejection? ==>
              rec.nextInstance == Current(spec, m) && RefusedFor(spec, Current(spec, m), input, facts, rec.reason)))
  }

  /** What the caller is told is true of the journal; after a failure or a crash it cannot know. */
  ghost predicate Says(before: seq<Record>, after: seq<Record>, eventId: string, r: HandleResult)
  {
    match r
    case Committed => |after| == |before| + 1 && after[|before|].Commit?
    case Rejected(reason) =>
      reason == StoreAppendFailed ||
      (|after| == |before| + 1 && after[|before|].Rejection? && after[|before|].reason == reason)
    case Deduped => after == before && Answered(before, eventId)
    case Crashed => true
  }

  lemma HandledMeans(spec: Spec, before: seq<Record>, input: Input, facts: Facts, now: int, at: int,
                     reply: Reply, after: seq<Record>, r: HandleResult)
    requires HandledAs(spec, before, input, facts, VerdictFor(spec, Replayed(before), input, facts, now), at, reply,
                       after, r)
    ensures AnsweredBy(spec, before, input, facts, at, after)
    ensures Says(before, after, input.eventId, r)
  {
    var m := Replayed(before);
    match VerdictFor(spec, m, input, facts, now)
    case Dedupe =>
      DedupedIff(spec, before, input, facts, now);
      var k :| LastAnswer(before, input.eventId, k);
      assert Answers(before[k]);
    case Reject(reason) =>
      var rec := Rejection(input.eventId, at, reason, Current(spec, m));
      RefusalMeans(spec, m, input, facts, now);
      WrittenOrNot(before, after, rec, Rejected(reason), reply, r);
    case Accept(t, effects) =>
      var rec := CommitRecord(spec, Current(spec, m), input, facts, t, effects, at);
      WrittenOrNot(before, after, rec, Committed, reply, r);
      CommitAnswers(spec, before, input, facts, now, at, rec);
  }

  lemma WrittenOrNot(before: seq<Record>, after: seq<Record>, rec: Record, success: HandleResult, reply: Reply,
                     r: HandleResult)
    requires Answers(rec) && Handled(before, after, rec, success, reply, r)
    requires success == if rec.Commit? then Committed else Rejected(rec.reason)
    ensures after == before || after == before + [rec]
    ensures Says(before, after, rec.eventId, r)
  {
  }

  lemma CommitAnswers(spec: Spec, before: seq<Record>, input: Input, facts: Facts, now: int, at: int, rec: Record)
    requires var v := VerdictFor(spec, Replayed(before), input, facts, now);
             v.Accept? && rec == CommitRecord(spec, Current(spec, Replayed(before)), input, facts, v.transition,
                                              v.effects, at)
    ensures AnsweredBy(spec, before, input, facts, at, before + [rec])
  {
    var after, t := before + [rec], VerdictFor(spec, Replayed(before), input, facts, now).transition;
    CommitTakes(spec, Replayed(before), input, facts, now, at);
    assert after[..|before|] == before && after[|before|] == rec;
    assert Replayed(after) == Update(Replayed(before), rec);
    assert TakenBy(spec, Replayed(before), Replayed(after), input, facts, at, t);
  }

  /** The reason a failed append gives; a quota may use the same words. */
  predicate LooksUnwritten(r: HandleResult)
  {
    r.Rejected? && (r.reason == StoreAppendFailed || r.reason == Quota("store-append-failed"))
  }

  lemma AckKeepsOthers(journal: seq<Record>, id: string)
    ensures forall x :: PendingTask(journal + [EffectAcked(id)], x) <==> PendingTask(journal, x)
    ensures forall x :: PendingEffect(journal + [EffectAcked(id)], x) <==> x != id && PendingEffect(journal, x)
  {
    assert (journal + [EffectAcked(id)])[..|journal|] == journal;
    ReplayedOk(journal);
    RemoveKeys(Replayed(journal).effects, id);
  }

  lemma HandledIsAnswered(before: seq<Record>, after: seq<Record>, rec: Record, success: HandleResult, reply: Reply,
                          r: HandleResult)
    requires Answers(rec) && Handled(before, after, rec, success, reply, r)
    ensures LooksUnwritten(r) || r == Crashed || Answered(after, rec.eventId)
    ensures OneAnswer(before, after)
  {
    if after != before {
      assert after[|before|] == rec;
    }
  }

  /** A journal grown by at most one answer. */
  ghost predicate OneAnswer(before: seq<Record>, after: seq<Record>)
  {
    after == before || (|after| == |before| + 1 && after == before + [after[|before|]] && Answers(after[|before|]))
  }

  lemma HandledKeepsPending(before: seq<Record>, after: seq<Record>)
    requires OneAnswer(before, after)
    ensures forall x :: PendingTask(before, x) ==> PendingTask(after, x)
  {
    if after != before {
      forall x
        ensures PendingTask(before, x) ==> PendingTask(after, x)
      {
        PendingStep(before, after[|before|], x);
      }
    }
  }

  /** The pending lists of a projection hold pending ids, each once. */
  lemma PendingValues(journal: seq<Record>)
    ensures var m := Replayed(journal); var es, ts := Values(m.effects), Values(m.tasks);
            && (forall k :: 0 <= k < |es| ==> PendingEffect(journal, es[k].effectId))
            && (forall a, b :: 0 <= a < b < |es| ==> es[a].effectId != es[b].effectId)
            && (forall k :: 0 <= k < |ts| ==> PendingTask(journal, ts[k].taskId))
            && (forall a, b :: 0 <= a < b < |ts| ==> ts[a].taskId != ts[b].taskId)
  {
    ReplayedOk(journal);
    var m := Replayed(journal);
    assert forall k :: 0 <= k < |m.effects| ==> m.effects[k].0 == EffectKey(m.effects[k].1);
    assert forall k :: 0 <= k < |m.tasks| ==> m.tasks[k].0 == TaskKey(m.tasks[k].1);
  }

  /** The acknowledgements of the effects whose execution succeeded, in order. */
  ghost function Acks(effects: seq<Effect>, ok: seq<bool>): seq<Record>
    requires |ok| <= |effects|
  {
    if ok == [] then []
    else
      var n := |ok| - 1;
      Acks(effects, ok[..n]) + if ok[n] then [EffectAcked(effects[n].effectId)] else []
  }

  lemma AcksStep(effects: seq<Effect>, ok: seq<bool>, succeeded: bool)
    requires |ok| < |effects|
    ensures Acks(effects, ok + [succeeded]) ==
            Acks(effects, ok) + if succeeded then [EffectAcked(effects[|ok|].effectId)] else []
  {
    assert (ok + [succeeded])[..|ok|] == ok;
  }

  /** From position `from` on, no effect is acknowledged. */
  ghost predicate NoEffectAcks(journal: seq<Record>, from: nat)
  {
    forall k :: from <= k < |journal| ==> !journal[k].EffectAcked?
  }

  /** The pending effects were gone through in order, up to `max` successes, before anything else was written. */
  ghost predicate DrainedEffects(before: seq<Record>, after: seq<Record>, ok: seq<bool>, max: nat)
  {
    var effects := Values(Replayed(before).effects);
    && |ok| <= |effects| && before + Acks(effects, ok) <= after
    && NoEffectAcks(after, |before| + |Acks(effects, ok)|)
    && |Acks(effects, ok)| <= max && (|ok| == |effects| || |Acks(effects, ok)| == max)
  }

  // ----- tasks

  /** The tasks that were ready, in order. */
  ghost function Chosen(tasks: seq<Task>, ready: seq<bool>): seq<Task>
    requires |ready| <= |tasks|
  {
    if ready == [] then []
    else
      var n := |ready| - 1;
      Chosen(tasks, ready[..n]) + if ready[n] then [tasks[n]] else []
  }

  ghost predicate Picks(tasks: seq<Task>, ready: seq<bool>, due: seq<Task>, early: int, late: int)
  {
    && |ready| <= |tasks| && due == Chosen(tasks, ready)
    && forall i :: 0 <= i < |ready| ==> if ready[i] then tasks[i].dueAt <= late else early < tasks[i].dueAt
  }

  /** In order, every task due at the time `early` and none that is not due at `late`. */
  ghost predicate DueBetween(tasks: seq<Task>, due: seq<Task>, early: int, late: int)
  {
    exists ready :: |ready| == |tasks| && Picks(tasks, ready, due, early, late)
  }

  lemma PicksStep(tasks: seq<Task>, ready: seq<bool>, due: seq<Task>, early: int, late: int, isDue: bool, later: int)
    requires Picks(tasks, ready, due, early, late) && |ready| < |tasks| && early <= late <= later
    requires isDue == (tasks[|ready|].dueAt <= later)
    ensures Picks(tasks, ready + [isDue], if isDue then due + [tasks[|ready|]] else due, early, later)
  {
    assert (ready + [isDue])[..|ready|] == ready;
  }

  /** What the environment says when a task is handled, and how the store takes the answer and the acknowledgement. */
  datatype Env = Env(facts: Facts, reply: Reply, ack: Reply)

  predicate Works(env: Env)
  {
    env.reply.report.Written? && env.ack.report.Written?
  }

  /** One task handled: the journal before and after, what the environment said, and the times of verdict and record. */
  datatype Handling = Handling(before: seq<Record>, after: seq<Record>, env: Env, now: int, at: int)

  /** The task was handled as an event of its own id, type and payload. */
  ghost predicate TaskHandled(spec: Spec, task: Task, r: HandleResult, h: Handling)
  {
    var input := Input(task.taskId, task.kind, task.payload);
    && HandledAs(spec, h.before, input, h.env.facts, VerdictFor(spec, Replayed(h.before), input, h.env.facts, h.now),
                 h.at, h.env.reply, h.after, r)
    && AnsweredBy(spec, h.before, input, h.env.facts, h.at, h.after)
    && Says(h.before, h.after, task.taskId, r)
  }

  /** What the record of a task says about the task that was queued. */
  lemma TaskRecordMeans(spec: Spec, task: Task, r: HandleResult, h: Handling)
    requires TaskHandled(spec, task, r, h)
    ensures var state := Current(spec, Replayed(h.before)).state;
            && (r == Committed ==>
                  exists t :: t in spec.transitions && t.from == state && t.on == task.kind
                              && Replayed(h.after).instance.Some? && Replayed(h.after).instance.value.state == t.to)
            && (r == Rejected(NoTransition) ==>
                  forall t :: t in spec.transitions && t.from == state ==> t.on != task.kind)
  {
    var m, input := Replayed(h.before), Input(task.taskId, task.kind, task.payload);
    if r == Committed {
      var t :| TakenBy(spec, m, Replayed(h.after), input, h.env.facts, h.at, t);
      assert t in spec.transitions;
    }
  }

  /** The journal once the task is done with: acknowledged, unless the store's answer was that nothing was written. */
  ghost function AfterTask(task: Task, r: HandleResult, h: Handling): seq<Record>
  {
    if r == Rejected(StoreAppendFailed) || r == Rejected(Quota("store-append-failed")) then h.after
    else h.after + [TaskAcked(task.taskId)]
  }

  lemma AfterTaskIs(task: Task, r: HandleResult, h: Handling)
    ensures AfterTask(task, r, h) == if LooksUnwritten(r) then h.after else h.after + [TaskAcked(task.taskId)]
  {
  }

  lemma NoCrash(spec: Spec, task: Task, r: HandleResult, h: Handling)
    requires TaskHandled(spec, task, r, h)
    ensures h.env.reply.report.Written? ==> r != Crashed
  {
  }

  ghost function BeforeTask(start: seq<Record>, due: seq<Task>, results: seq<HandleResult>, log: seq<Handling>,
                            k: nat): seq<Record>
    requires k <= |log| <= |results| <= |due|
  {
    if k == 0 then start else AfterTask(due[k - 1], results[k - 1], log[k - 1])
  }

  ghost predicate HandledInTurn(spec: Spec, start: seq<Record>, due: seq<Task>, envs: nat -> Env,
                                results: seq<HandleResult>, log: seq<Handling>, k: nat)
    requires k < |log| <= |results| <= |due|
  {
    && log[k].env == envs(k) && log[k].before == BeforeTask(start, due, results, log, k)
    && results[k] != Crashed && TaskHandled(spec, due[k], results[k], log[k])
  }

  /** The tasks were handled one after the other, from `start` to `end`, with nothing else written. */
  ghost predicate TaskChain(spec: Spec, start: seq<Record>, due: seq<Task>, envs: nat -> Env,
                            results: seq<HandleResult>, log: seq<Handling>, end: seq<Record>)
  {
    && |log| == |results| <= |due|
    && (forall k :: 0 <= k < |log| ==> HandledInTurn(spec, start, due, envs, results, log, k))
    && end == BeforeTask(start, due, results, log, |log|)
  }

  lemma ChainStep(spec: Spec, start: seq<Record>, due: seq<Task>, envs: nat -> Env, results: seq<HandleResult>,
                  log: seq<Handling>, end: seq<Record>, r: HandleResult, h: Handling)
    requires TaskChain(spec, start, due, envs, results, log, end) && |log| < |due|
    requires h.env == envs(|log|) && h.before == end && r != Crashed && TaskHandled(spec, due[|log|], r, h)
    ensures TaskChain(spec, start, due, envs, results + [r], log + [h], AfterTask(due[|log|], r, h))
  {
    forall k | 0 <= k < |log| + 1
      ensures HandledInTurn(spec, start, due, envs, results + [r], log + [h], k)
    {
      if k < |log| {
        assert HandledInTurn(spec, start, due, envs, results, log, k);
      }
    }
  }

  lemma LaterIsLater(before: seq<Record>, middle: seq<Record>, after: seq<Record>)
    requires before <= middle <= after
    ensures forall r :: r in after[|middle|..] ==> r in after[|before|..]
  {
    assert after[|before|..][|middle| - |before|..] == after[|middle|..];
  }

  lemma LastOfLater(before: seq<Record>, middle: seq<Record>, after: seq<Record>, rec: Record)
    requires before <= middle && after == middle + [rec]
    ensures rec in after[|before|..]
  {
    assert after[|before|..][|middle| - |before|] == rec;
  }

  /** Every task has been acknowledged since, or its result says that nothing was written. */
  ghost predicate AllAcked(due: seq<Task>, results: seq<HandleResult>, journal: seq<Record>, from: nat)
    requires |results| <= |due| && from <= |journal|
  {
    forall k :: 0 <= k < |results| ==> LooksUnwritten(results[k]) || TaskAcked(due[k].taskId) in journal[from..]
  }

  lemma AllAckedStep(due: seq<Task>, results: seq<HandleResult>, start: seq<Record>, before: seq<Record>,
                     after: seq<Record>, r: HandleResult)
    requires |results| < |due| && start <= before <= after && AllAcked(due, results, before, |start|)
    requires LooksUnwritten(r) || TaskAcked(due[|results|].taskId) in after[|before|..]
    ensures AllAcked(due, results + [r], after, |start|)
  {
    LaterIsLater(start, before, after);
    assert before[|start|..] <= after[|start|..];
  }

  lemma DueLater(tasks: seq<Task>, due: seq<Task>, early: int, late: int, later: int)
    requires DueBetween(tasks, due, early, late) && late <= later
    ensures DueBetween(tasks, due, early, later)
  {
    var ready :| |ready| == |tasks| && Picks(tasks, ready, due, early, late);
    assert Picks(tasks, ready, due, early, later);
  }

  /** The tasks that were pending and due were handled in turn, after the effects were gone through. */
  ghost predicate DrainedTasks(spec: Spec, before: seq<Record>, ok: seq<bool>, due: seq<Task>, envs: nat -> Env,
                               results: seq<HandleResult>, log: seq<Handling>, after: seq<Record>)
  {
    var effects := Values(Replayed(before).effects);
    |ok| <= |effects| && TaskChain(spec, before + Acks(effects, ok), due, envs, results, log, after)
  }

  class Workflow {
    var journal: seq<Record>
    var clock: int
    /** The specification in force when each record was written. */
    ghost var specs: seq<Spec>

    ghost predicate Valid()
      reads this
    {
      LegalRun(journal, specs) && NotBefore(journal, clock)
    }

    constructor (start: int)
      ensures Valid() && journal == [] && clock == start
    {
      journal, clock, specs := [], start, [];
    }

    /** Any time that is not before the last one. */
    method Now() returns (t: int)
      modifies this`clock
      ensures old(clock) <= t == clock
      ensures old(Valid()) ==> Valid()
    {
      t := *;
      if t < clock {
        t := clock;
      }
      clock := t;
    }

    /**
     * The store, behaving as `reply` says: it writes and says so, writes and loses the reply, fails, or finds the event
     * id taken; the process may stop before or after the write.
     */
    method Append(spec: Spec, rec: Record, reply: Reply) returns (report: Report)
      requires Valid() && LegalAppend(spec, journal, rec) && (Answers(rec) ==> rec.recordedAt <= clock)
      modifies this`journal, this`specs
      ensures Valid()
      ensures journal == Appended(old(journal), rec, reply) && report == ReportOf(old(journal), rec, reply)
      ensures reply.report.Written? ==> journal == old(journal) + [rec] && report.Written?
      ensures report.Duplicate? ==> journal == old(journal) && Answers(rec) && Answered(journal, rec.eventId)
    {
      report := reply.report;
      if report.Duplicate? && !IsRepeat(journal, rec) {
        report := Failure;
      }
      if report.Written? || (reply.written && !report.Duplicate?) {
        LegalExtend(journal, specs, rec, spec);
        journal, specs := journal + [rec], specs + [spec];
      }
    }

    method AppendRejection(spec: Spec, inst: Instance, input: Input, reason: Reason, reply: Reply)
      returns (r: HandleResult)
      requires Valid() && inst == Current(spec, Replayed(journal))
      requires forall at :: clock <= at ==> LegalAppend(spec, journal, Rejection(input.eventId, at, reason, inst))
      modifies this
      ensures Valid() && old(clock) <= clock
      ensures Handled(old(journal), journal, Rejection(input.eventId, clock, reason, inst), Rejected(reason), reply, r)
    {
      var recordedAt := Now();
      var report := Append(spec, Rejection(input.eventId, recordedAt, reason, inst), reply);
      match report {
        case Written => r := Rejected(reason);
        case Duplicate => r := Deduped;
        case Failure => r := Rejected(StoreAppendFailed);
        case Crash => r := Crashed;
      }
    }

    /** The checks, in the engine's order; the clock is read only for an event that has been seen. */
    method Judge(spec: Spec, inst: Instance, seen: Entries<int>, input: Input, facts: Facts) returns (v: Verdict)
      requires Valid() && inst == Current(spec, Replayed(journal)) && seen == Replayed(journal).seen
      modifies this`clock
      ensures Valid() && old(clock) <= clock
      ensures v == VerdictFor(spec, Replayed(journal), input, facts, clock)
    {
      if !Matches(spec, inst) {
        return Reject(SpecMismatch);
      }
      var seenAt := Get(seen, input.eventId);
      if seenAt.Some? {
        var now := Now();
        if now - seenAt.value <= TTL {
          return Dedupe;
        }
      }
      if facts.payloadBytes > spec.limits.maxPayloadBytes {
        return Reject(PayloadTooLarge);
      }
      if facts.quota.Some? {
        return Reject(Quota(facts.quota.value));
      }
      var decision := Decide(spec, inst, input);
      if decision.Refuse? {
        return Reject(decision.reason);
      }
      if facts.contextBytes > spec.limits.maxContextBytes {
        return Reject(ContextTooLarge);
      }
      v := Accept(decision.transition, decision.effects);
    }

    method CommitInput(spec: Spec, inst: Instance, input: Input, facts: Facts, t: Transition,
                       effects: seq<DecidedEffect>, reply: Reply)
      returns (r: HandleResult)
      requires Valid()
      requires forall at :: clock <= at ==>
                 LegalAppend(spec, journal, CommitRecord(spec, inst, input, facts, t, effects, at))
      modifies this
      ensures Valid() && old(clock) <= clock
      ensures Handled(old(journal), journal, CommitRecord(spec, inst, input, facts, t, effects, clock), Committed,
                      reply, r)
    {
      var commitAt := Now();
      var tasks := BuildPendingTasks(spec, input.eventId, facts.commitId, commitAt, t.nextInputs, t.to);
      var rec := Commit(facts.commitId, input.eventId, commitAt, Moved(inst, t, facts.patched),
                        PendingEffects(effects, facts.commitId, commitAt), tasks);
      assert rec == CommitRecord(spec, inst, input, facts, t, effects, commitAt);
      var report := Append(spec, rec, reply);
      match report {
        case Written => r := Committed;
        case Duplicate => r := Deduped;
        case Failure => r := Rejected(StoreAppendFailed);
        case Crash => r := Crashed;
      }
    }

    /** One input: the journal gains the one record the verdict asks for, or none. */
    method HandleLocked(spec: Spec, input: Input, facts: Facts, reply: Reply)
      returns (r: HandleResult, ghost now: int)
      requires Valid()
      modifies this
      ensures Valid() && old(clock) <= now <= clock
      ensures HandledAs(spec, old(journal), input, facts, VerdictFor(spec, Replayed(old(journal)), input, facts, now),
                        clock, reply, journal, r)
      ensures AnsweredBy(spec, old(journal), input, facts, clock, journal)
      ensures Says(old(journal), journal, input.eventId, r)
      ensures LooksUnwritten(r) || r == Crashed || Answered(journal, input.eventId)
      ensures OneAnswer(old(journal), journal)
    {
      var p := ReplayJournal(journal);
      var inst := if p.instance.Some? then p.instance.value else InitialInstance(spec);
      var v := Judge(spec, inst, p.seen, input, facts);
      now := clock;
      match v {
        case Dedupe =>
          VerdictIsLegal(spec, journal, input, facts, clock, clock);
          r := Deduped;
        case Reject(reason) =>
          forall at | clock <= at
            ensures LegalAppend(spec, journal, Rejection(input.eventId, at, reason, inst))
          {
            VerdictIsLegal(spec, journal, input, facts, clock, at);
          }
          r := AppendRejection(spec, inst, input, reason, reply);
          HandledIsAnswered(old(journal), journal, Rejection(input.eventId, clock, reason, inst), Rejected(reason),
                            reply, r);
        case Accept(t, effects) =>
          forall at | clock <= at
            ensures LegalAppend(spec, journal, CommitRecord(spec, inst, input, facts, t, effects, at))
          {
            VerdictIsLegal(spec, journal, input, facts, clock, at);
          }
          r := CommitInput(spec, inst, input, facts, t, effects, reply);
          HandledIsAnswered(old(journal), journal, CommitRecord(spec, inst, input, facts, t, effects, clock),
                            Committed, reply, r);
      }
      HandledMeans(spec, old(journal), input, facts, now, clock, reply, journal, r);
    }

    /**
     * Each pending effect is executed, and acknowledged when that succeeded, until `max` were acknowledged or an
     * acknowledgement cannot be written; `ok` records how the executions went.
     */
    method DrainEffects(effects: seq<Effect>, max: nat, spec: Spec, succeeds: nat -> bool, acks: nat -> Reply)
      returns (done: bool, ghost ok: seq<bool>)
      requires Valid()
      requires forall k :: 0 <= k < |effects| ==> PendingEffect(journal, effects[k].effectId)
      requires forall a, b :: 0 <= a < b < |effects| ==> effects[a].effectId != effects[b].effectId
      modifies this`journal, this`specs
      ensures Valid() && old(journal) <= journal
      ensures forall id :: PendingTask(old(journal), id) ==> PendingTask(journal, id)
      ensures forall i :: 0 <= i < |ok| ==> ok[i] == succeeds(i)
      ensures (forall i :: acks(i).report.Written?) ==> done
      ensures done ==> |ok| <= |effects| && journal == old(journal) + Acks(effects, ok)
      ensures done ==> |Acks(effects, ok)| <= max && (|ok| == |effects| || |Acks(effects, ok)| == max)
    {
      var processed := 0;
      ok := [];
      var i := 0;
      while i < |effects| && processed < max
        invariant 0 <= i <= |effects| && |ok| == i && processed <= max
        invariant forall k :: 0 <= k < i ==> ok[k] == succeeds(k)
        invariant Valid() && journal == old(journal) + Acks(effects, ok) && processed == |Acks(effects, ok)|
        invariant forall k :: i <= k < |effects| ==> PendingEffect(journal, effects[k].effectId)
        invariant forall id :: PendingTask(old(journal), id) ==> PendingTask(journal, id)
      {
        var succeeded := succeeds(i);
        AcksStep(effects, ok, succeeded);
        ok := ok + [succeeded];
        if succeeded {
          var written := AckEffect(effects, i, spec, acks(i));
          if !written {
            return false, ok;
          }
          processed := processed + 1;
        }
        i := i + 1;
      }
      done := true;
    }

    method AckEffect(effects: seq<Effect>, i: nat, spec: Spec, reply: Reply) returns (written: bool)
      requires Valid() && i < |effects|
      requires forall k :: i <= k < |effects| ==> PendingEffect(journal, effects[k].effectId)
      requires forall a, b :: 0 <= a < b < |effects| ==> effects[a].effectId != effects[b].effectId
      modifies this`journal, this`specs
      ensures Valid() && old(journal) <= journal
      ensures reply.report.Written? ==> written
      ensures written ==> journal == old(journal) + [EffectAcked(effects[i].effectId)]
      ensures forall k :: i < k < |effects| ==> PendingEffect(journal, effects[k].effectId)
      ensures forall id :: PendingTask(old(journal), id) ==> PendingTask(journal, id)
    {
      ghost var j0 := journal;
      var report := Append(spec, EffectAcked(effects[i].effectId), reply);
      AckKeepsOthers(j0, effects[i].effectId);
      written := report.Written?;
    }

    /** The tasks whose time has come; the clock is read for each. */
    method DueTasks(tasks: seq<Task>) returns (due: seq<Task>)
      requires Valid()
      requires forall a, b :: 0 <= a < b < |tasks| ==> tasks[a].taskId != tasks[b].taskId
      modifies this`clock
      ensures Valid() && old(clock) <= clock && DueBetween(tasks, due, old(clock), clock)
      ensures forall t :: t in due ==> t in tasks && t.dueAt <= clock
      ensures forall t :: t in tasks && t.dueAt <= old(clock) ==> t in due
      ensures forall a, b :: 0 <= a < b < |due| ==> due[a].taskId != due[b].taskId
    {
      due := [];
      ghost var ready: seq<bool> := [];
      for i := 0 to |tasks|
        invariant Valid() && old(clock) <= clock
        invariant |ready| == i && Picks(tasks, ready, due, old(clock), clock)
        invariant forall t :: t in due ==> t in tasks[..i] && t.dueAt <= clock
        invariant forall t :: t in tasks[..i] && t.dueAt <= old(clock) ==> t in due
        invariant forall a, b :: 0 <= a < b < |due| ==> due[a].taskId != due[b].taskId
      {
        ghost var late := clock;
        var now := Now();
        assert tasks[..i + 1] == tasks[..i] + [tasks[i]];
        PicksStep(tasks, ready, due, old(clock), late, tasks[i].dueAt <= now, now);
        ready := ready + [tasks[i].dueAt <= now];
        if tasks[i].dueAt <= now {
          assert forall a :: 0 <= a < |due| ==> due[a] in tasks[..i];
          due := due + [tasks[i]];
        }
      }
      assert tasks[..|tasks|] == tasks;
    }

    /**
     * Each due task is handled as an event of its own id and then acknowledged, unless the store seems not to have
     * answered; the loop stops at `max` results, at a crash, or when an acknowledgement cannot be written.
     */
    method DrainTasks(spec: Spec, due: seq<Task>, max: nat, envs: nat -> Env)
      returns (results: seq<HandleResult>, done: bool, ghost log: seq<Handling>)
      requires Valid()
      requires forall k :: 0 <= k < |due| ==> PendingTask(journal, due[k].taskId)
      requires forall a, b :: 0 <= a < b < |due| ==> due[a].taskId != due[b].taskId
      modifies this
      ensures Valid() && old(journal) <= journal && old(clock) <= clock
      ensures NoEffectAcks(journal, |old(journal)|)
      ensures |results| <= |due| && |results| <= max && (done ==> |results| == if |due| < max then |due| else max)
      ensures (forall k :: Works(envs(k))) ==> done
      ensures done ==> TaskChain(spec, old(journal), due, envs, results, log, journal)
      ensures done ==> AllAcked(due, results, journal, |old(journal)|)
    {
      results, log := [], [];
      for i := 0 to |due|
        invariant Valid() && old(journal) <= journal && old(clock) <= clock && |results| == i <= max
        invariant NoEffectAcks(journal, |old(journal)|)
        invariant forall k :: i <= k < |due| ==> PendingTask(journal, due[k].taskId)
        invariant TaskChain(spec, old(journal), due, envs, results, log, journal)
        invariant AllAcked(due, results, journal, |old(journal)|)
      {
        if |results| >= max {
          break;
        }
        ghost var j0 := journal;
        var r, acked;
        ghost var h;
        r, acked, h := DrainTask(spec, due[i], envs(i));
        if r == Crashed || !(LooksUnwritten(r) || acked) {
          return results, false, log;
        }
        AllAckedStep(due, results, old(journal), j0, journal, r);
        ChainStep(spec, old(journal), due, envs, results, log, j0, r, h);
        results, log := results + [r], log + [h];
      }
      done := true;
    }

    method DrainTask(spec: Spec, task: Task, env: Env) returns (r: HandleResult, acked: bool, ghost h: Handling)
      requires Valid() && PendingTask(journal, task.taskId)
      modifies this
      ensures Valid() && old(journal) <= journal && old(clock) <= clock
      ensures h.before == old(journal) && h.env == env && TaskHandled(spec, task, r, h)
      ensures Works(env) ==> r != Crashed && (LooksUnwritten(r) || acked)
      ensures r != Crashed && (LooksUnwritten(r) || acked) ==> journal == AfterTask(task, r, h)
      ensures NoEffectAcks(journal, |old(journal)|)
      ensures forall x :: x != task.taskId && PendingTask(old(journal), x) ==> PendingTask(journal, x)
      ensures acked ==> TaskAcked(task.taskId) in journal[|old(journal)|..]
    {
      r, h := HandleTask(spec, task, env);
      AfterTaskIs(task, r, h);
      acked := false;
      if r != Crashed && !LooksUnwritten(r) {
        acked := AckTask(spec, task, env.ack);
        if acked {
          LastOfLater(old(journal), h.after, journal, TaskAcked(task.taskId));
        }
      }
    }

    /** The task as an event of its own id, type and payload. */
    method HandleTask(spec: Spec, task: Task, env: Env) returns (r: HandleResult, ghost h: Handling)
      requires Valid()
      modifies this
      ensures Valid() && old(clock) <= clock
      ensures h.before == old(journal) && h.after == journal && h.env == env && TaskHandled(spec, task, r, h)
      ensures OneAnswer(old(journal), journal)
      ensures forall x :: PendingTask(old(journal), x) ==> PendingTask(journal, x)
      ensures LooksUnwritten(r) || r == Crashed || Answered(journal, task.taskId)
      ensures env.reply.report.Written? ==> r != Crashed
    {
      ghost var now: int;
      r, now := HandleLocked(spec, Input(task.taskId, task.kind, task.payload), env.facts, env.reply);
      h := Handling(old(journal), journal, env, now, clock);
      HandledKeepsPending(old(journal), journal);
      NoCrash(spec, task, r, h);
    }

    method AckTask(spec: Spec, task: Task, reply: Reply) returns (acked: bool)
      requires Valid() && PendingTask(journal, task.taskId) && Answered(journal, task.taskId)
      modifies this`journal, this`specs
      ensures Valid()
      ensures journal == old(journal) || journal == old(journal) + [TaskAcked(task.taskId)]
      ensures acked <==> reply.report.Written?
      ensures acked ==> journal == old(journal) + [TaskAcked(task.taskId)]
      ensures forall x :: x != task.taskId && PendingTask(old(journal), x) ==> PendingTask(journal, x)
    {
      ghost var before := journal;
      var report := Append(spec, TaskAcked(task.taskId), reply);
      forall x
        ensures x != task.taskId && PendingTask(before, x) ==> PendingTask(journal, x)
      {
        PendingStep(before, TaskAcked(task.taskId), x);
      }
      acked := report.Written?;
    }

    /**
     * One workflow's share of a drain: first the effects that were pending, each acknowledged if and only if its
     * execution succeeded, then the tasks that are due.
     */
    method DrainPendingWork(spec: Spec, maxEffects: nat, maxTasks: nat, succeeds: nat -> bool, acks: nat -> Reply,
                            envs: nat -> Env)
      returns (results: seq<HandleResult>, done: bool, ghost ok: seq<bool>, ghost due: seq<Task>,
               ghost log: seq<Handling>)
      requires Valid()
      modifies this
      ensures Valid() && old(journal) <= journal
      ensures (forall i :: acks(i).report.Written?) && (forall k :: Works(envs(k))) ==> done
      ensures forall i :: 0 <= i < |ok| ==> ok[i] == succeeds(i)
      ensures done ==> DrainedEffects(old(journal), journal, ok, maxEffects)
      ensures done ==> DueBetween(Values(Replayed(old(journal)).tasks), due, old(clock), clock)
      ensures forall t :: t in Values(Replayed(old(journal)).tasks) && t.dueAt <= old(clock) && done ==> t in due
      ensures |results| <= |due| && (done ==> |results| == if |due| < maxTasks then |due| else maxTasks)
      ensures done ==> DrainedTasks(spec, old(journal), ok, due, envs, results, log, journal)
      ensures done ==> AllAcked(due, results, journal, |old(journal)|)
    {
      var p := ReplayJournal(journal);
      PendingValues(journal);
      assert p.pendingEffects == Values(Replayed(journal).effects) && p.pendingTasks == Values(Replayed(journal).tasks);
      results, due, log := [], [], [];
      done, ok := DrainEffects(p.pendingEffects, maxEffects, spec, succeeds, acks);
      if !done {
        return;
      }
      ghost var middle := journal;
      results, done, due, log := DrainDue(spec, p.pendingTasks, maxTasks, envs);
      LaterIsLater(old(journal), middle, journal);
    }

    /** The tasks that are due, handled in turn. */
    method DrainDue(spec: Spec, tasks: seq<Task>, max: nat, envs: nat -> Env)
      returns (results: seq<HandleResult>, done: bool, ghost due: seq<Task>, ghost log: seq<Handling>)
      requires Valid()
      requires forall k :: 0 <= k < |tasks| ==> PendingTask(journal, tasks[k].taskId)
      requires forall a, b :: 0 <= a < b < |tasks| ==> tasks[a].taskId != tasks[b].taskId
      modifies this
      ensures Valid() && old(journal) <= journal && old(clock) <= clock
      ensures NoEffectAcks(journal, |old(journal)|)
      ensures (forall k :: Works(envs(k))) ==> done
      ensures DueBetween(tasks, due, old(clock), clock)
      ensures forall t :: t in tasks && t.dueAt <= old(clock) ==> t in due
      ensures |results| <= |due| && (done ==> |results| == if |due| < max then |due| else max)
      ensures done ==> TaskChain(spec, old(journal), due, envs, results, log, journal)
      ensures done ==> AllAcked(due, results, journal, |old(journal)|)
    {
      var ready := DueTasks(tasks);
      due := ready;
      ghost var late := clock;
      forall k | 0 <= k < |ready|
        ensures PendingTask(journal, ready[k].taskId)
      {
        assert ready[k] in tasks;
      }
      results, done, log := DrainTasks(spec, ready, max, envs);
      DueLater(tasks, due, old(clock), late, clock);
    }
  }
}

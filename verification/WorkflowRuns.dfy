/** Journals of workflows: which records may follow which, and what holds of every journal grown that way. */
module WorkflowRuns {
  import opened Options
  import opened Guard
  import opened SpecValidation
  import opened Projections
  import opened Worklists
  import opened Engine

  // ----- the instance an input meets

  function InitialInstance(spec: Spec): Instance
  {
    Instance(spec.specId, spec.specVersion, spec.initialState, Obj(map[]), 0, Running)
  }

  function Current(spec: Spec, m: Maps): Instance
  {
    if m.instance.Some? then m.instance.value else InitialInstance(spec)
  }

  predicate Matches(spec: Spec, inst: Instance)
  {
    inst.specId == spec.specId && inst.specVersion == spec.specVersion
  }

  /** At the time `at` the event has no record, or only records older than the TTL. */
  predicate Forgotten(seen: Entries<int>, eventId: string, at: int)
  {
    var s := Get(seen, eventId);
    s.Some? ==> at - s.value > TTL
  }

  // ----- legal growth of a journal

  /** Commits and rejections: the records that answer an event. */
  predicate Answers(rec: Record)
  {
    rec.Commit? || rec.Rejection?
  }

  predicate Answered(journal: seq<Record>, eventId: string)
  {
    exists k :: 0 <= k < |journal| && Answers(journal[k]) && journal[k].eventId == eventId
  }

  ghost predicate PendingTask(journal: seq<Record>, id: string)
  {
    HasKey(Replayed(journal).tasks, id)
  }

  ghost predicate PendingEffect(journal: seq<Record>, id: string)
  {
    HasKey(Replayed(journal).effects, id)
  }

  /** No earlier answer carries a later time. */
  ghost predicate NotBefore(journal: seq<Record>, at: int)
  {
    forall k :: 0 <= k < |journal| && Answers(journal[k]) ==> journal[k].recordedAt <= at
  }

  ghost predicate Steps(spec: Spec, inst: Instance, next: Instance, t: Transition)
  {
    && t in spec.transitions && t.from == inst.state
    && next == inst.(state := t.to, context := next.context, version := inst.version + 1)
  }

  /** `rec` may be written to `journal` by an engine configured with `spec`. */
  ghost predicate LegalAppend(spec: Spec, journal: seq<Record>, rec: Record)
  {
    var m := Replayed(journal);
    var inst := Current(spec, m);
    match rec
    case Commit(_, eventId, at, next, _, _) =>
      && NotBefore(journal, at) && Matches(spec, inst) && Forgotten(m.seen, eventId, at)
      && exists t :: Steps(spec, inst, next, t)
    case Rejection(eventId, at, reason, next) =>
      && NotBefore(journal, at) && next == inst
      && (reason == SpecMismatch <==> !Matches(spec, inst))
      && (reason != SpecMismatch ==> Forgotten(m.seen, eventId, at))
    case EffectAcked(id) => PendingEffect(journal, id)
    case TaskAcked(id) => PendingTask(journal, id) && Answered(journal, id)
  }

  ghost predicate LegalAt(journal: seq<Record>, specs: seq<Spec>, i: nat)
    requires i < |journal| == |specs|
  {
    LegalAppend(specs[i], journal[..i], journal[i])
  }

  /** A journal in which `specs[i]` was the engine's specification when record `i` was written. */
  ghost predicate LegalRun(journal: seq<Record>, specs: seq<Spec>)
  {
    |specs| == |journal| && forall i :: 0 <= i < |journal| ==> LegalAt(journal, specs, i)
  }

  lemma LegalExtend(journal: seq<Record>, specs: seq<Spec>, rec: Record, spec: Spec)
    requires LegalRun(journal, specs) && LegalAppend(spec, journal, rec)
    ensures LegalRun(journal + [rec], specs + [spec])
  {
    var j', s' := journal + [rec], specs + [spec];
    forall i | 0 <= i < |j'|
      ensures LegalAt(j', s', i)
    {
      if i < |journal| {
        assert LegalAt(journal, specs, i);
        assert j'[..i] == journal[..i];
      } else {
        assert j'[..i] == journal;
      }
    }
  }

  lemma LegalPrefix(journal: seq<Record>, specs: seq<Spec>, n: nat)
    requires LegalRun(journal, specs) && n <= |journal|
    ensures LegalRun(journal[..n], specs[..n])
  {
    forall i | 0 <= i < n
      ensures LegalAt(journal[..n], specs[..n], i)
    {
      assert LegalAt(journal, specs, i);
      assert journal[..n][..i] == journal[..i];
    }
  }

  // ----- what the seen map remembers

  /** `k` is the last answer to the event. */
  ghost predicate LastAnswer(journal: seq<Record>, eventId: string, k: int)
  {
    && 0 <= k < |journal| && Answers(journal[k]) && journal[k].eventId == eventId
    && forall i :: k < i < |journal| && Answers(journal[i]) ==> journal[i].eventId != eventId
  }

  /** `seen` is the time of the last answer to the event, or nothing when there is none. */
  ghost predicate IsLastTime(journal: seq<Record>, eventId: string, seen: Option<int>)
  {
    if seen.Some? then exists k :: LastAnswer(journal, eventId, k) && journal[k].recordedAt == seen.value
    else !Answered(journal, eventId)
  }

  lemma AnsweredNow(front: seq<Record>, rec: Record)
    requires Answers(rec)
    ensures IsLastTime(front + [rec], rec.eventId, Some(rec.recordedAt))
  {
    assert LastAnswer(front + [rec], rec.eventId, |front|);
  }

  lemma AnsweredBefore(front: seq<Record>, rec: Record, eventId: string, seen: Option<int>)
    requires IsLastTime(front, eventId, seen) && (Answers(rec) ==> rec.eventId != eventId)
    ensures IsLastTime(front + [rec], eventId, seen)
  {
    var journal := front + [rec];
    if seen.Some? {
      var k :| LastAnswer(front, eventId, k) && front[k].recordedAt == seen.value;
      assert LastAnswer(journal, eventId, k);
    } else {
      forall k | 0 <= k < |journal| && Answers(journal[k])
        ensures journal[k].eventId != eventId
      {
        assert k < |front| ==> front[k] == journal[k];
      }
    }
  }

  /** The seen map gives each answered event the time of its last answer, and no other event any. */
  lemma {:induction false} SeenIsLastAnswer(journal: seq<Record>, eventId: string)
    ensures IsLastTime(journal, eventId, Get(Replayed(journal).seen, eventId))
  {
    if journal == [] {
    } else {
      var n := |journal| - 1;
      var front, rec := journal[..n], journal[n];
      var before := Replayed(front).seen;
      SeenIsLastAnswer(front, eventId);
      assert journal == front + [rec];
      if Answers(rec) {
        GetPut(before, rec.eventId, rec.recordedAt, eventId);
      }
      if Answers(rec) && rec.eventId == eventId {
        AnsweredNow(front, rec);
      } else {
        AnsweredBefore(front, rec, eventId, Get(before, eventId));
      }
    }
  }

  // ----- idempotency

  /** A commit, or a rejection on the merits, comes more than seven days after every earlier answer to the event. */
  lemma AnswersFarApart(journal: seq<Record>, specs: seq<Spec>, i: nat, j: nat)
    requires LegalRun(journal, specs) && i < j < |journal|
    requires Answers(journal[i]) && Answers(journal[j]) && journal[i].eventId == journal[j].eventId
    requires journal[j].Rejection? ==> journal[j].reason != SpecMismatch
    ensures journal[j].recordedAt - journal[i].recordedAt > 604_800_000
  {
    var front, id := journal[..j], journal[j].eventId;
    assert LegalAt(journal, specs, j);
    SeenIsLastAnswer(front, id);
    assert front[i] == journal[i];
    var k :| LastAnswer(front, id, k) && front[k].recordedAt == Get(Replayed(front).seen, id).value;
    if i < k {
      assert LegalAt(journal, specs, k);
      assert journal[..k][i] == journal[i];
    }
  }

  /** Times in a journal never go back. */
  lemma TimesNeverDecrease(journal: seq<Record>, specs: seq<Spec>, i: nat, j: nat)
    requires LegalRun(journal, specs) && i < j < |journal| && Answers(journal[i]) && Answers(journal[j])
    ensures journal[i].recordedAt <= journal[j].recordedAt
  {
    assert LegalAt(journal, specs, j);
    assert journal[..j][i] == journal[i];
  }

  // ----- outstanding work

  function TaskChange(rec: Record): Change<Task>
  {
    match rec
    case Commit(_, _, _, _, _, tasks) => Queued(tasks)
    case TaskAcked(id) => Acked(id)
    case _ => Neither
  }

  function EffectChange(rec: Record): Change<Effect>
  {
    match rec
    case Commit(_, _, _, _, effects, _) => Queued(effects)
    case EffectAcked(id) => Acked(id)
    case _ => Neither
  }

  /** What the records do to a list, one by one. */
  function Changes<V>(journal: seq<Record>, change: Record -> Change<V>): (changes: seq<Change<V>>)
    ensures |changes| == |journal| && forall i :: 0 <= i < |journal| ==> changes[i] == change(journal[i])
  {
    seq(|journal|, i requires 0 <= i < |journal| => change(journal[i]))
  }

  lemma UntouchedBy<V>(journal: seq<Record>, change: Record -> Change<V>, key: V -> string, i: nat, id: string)
    requires forall k :: i < k < |journal| ==> change(journal[k]) != Acked(id)
    requires forall k :: i < k < |journal| ==> !Queues(change(journal[k]), key, id)
    ensures Untouched(Changes(journal, change), key, i, id)
  {
  }

  /** The replay keeps both lists by the same rules. */
  lemma {:induction false} ReplayIsOutstanding(journal: seq<Record>)
    ensures Replayed(journal).tasks == Outstanding(Changes(journal, TaskChange), TaskKey)
    ensures Replayed(journal).effects == Outstanding(Changes(journal, EffectChange), EffectKey)
  {
    if journal == [] {
    } else {
      var front := journal[..|journal| - 1];
      ReplayIsOutstanding(front);
      assert Changes(journal, TaskChange)[..|front|] == Changes(front, TaskChange);
      assert Changes(journal, EffectChange)[..|front|] == Changes(front, EffectChange);
    }
  }

  // ----- tasks

  ghost predicate QueuedBy(rec: Record, id: string)
  {
    Queues(TaskChange(rec), TaskKey, id)
  }

  lemma PendingStep(journal: seq<Record>, rec: Record, id: string)
    ensures PendingTask(journal + [rec], id) <==>
            QueuedBy(rec, id) || (PendingTask(journal, id) && rec != TaskAcked(id))
  {
    ReplayIsOutstanding(journal);
    ReplayIsOutstanding(journal + [rec]);
    assert Changes(journal + [rec], TaskChange) == Changes(journal, TaskChange) + [TaskChange(rec)];
    OutstandingStep(Changes(journal, TaskChange), TaskKey, TaskChange(rec), id);
  }

  /** Record `i` queued the task and nothing acknowledged it since. */
  ghost predicate TaskOpenSince(journal: seq<Record>, i: int, id: string)
  {
    && 0 <= i < |journal| && QueuedBy(journal[i], id)
    && forall m :: i < m < |journal| ==> journal[m] != TaskAcked(id)
  }

  /** A task is pending exactly when some commit queued it and nothing acknowledged it since. */
  lemma PendingIff(journal: seq<Record>, id: string)
    ensures PendingTask(journal, id) <==> exists i :: TaskOpenSince(journal, i, id)
  {
    var changes := Changes(journal, TaskChange);
    ReplayIsOutstanding(journal);
    OutstandingIff(changes, TaskKey, id);
    forall i
      ensures OpenSince(changes, TaskKey, i, id) <==> TaskOpenSince(journal, i, id)
    {
    }
  }

  /** A task is acknowledged only while it is pending, and after the answer to its event. */
  lemma AckedWasAnswered(journal: seq<Record>, specs: seq<Spec>, j: nat)
    requires LegalRun(journal, specs) && j < |journal| && journal[j].TaskAcked?
    ensures exists i :: 0 <= i < j && Answers(journal[i]) && journal[i].eventId == journal[j].taskId
    ensures exists k :: TaskOpenSince(journal[..j], k, journal[j].taskId)
  {
    assert LegalAt(journal, specs, j);
    var front, id := journal[..j], journal[j].taskId;
    var i :| 0 <= i < |front| && Answers(front[i]) && front[i].eventId == id;
    assert journal[i].eventId == id;
    PendingIff(front, id);
  }

  /** No task is lost: what a commit queued is pending, or its event was answered and it was acknowledged since. */
  lemma NoTaskLost(journal: seq<Record>, specs: seq<Spec>, i: nat, id: string)
    requires LegalRun(journal, specs) && i < |journal| && QueuedBy(journal[i], id)
    ensures PendingTask(journal, id) ||
            (Answered(journal, id) && exists m :: i < m < |journal| && journal[m] == TaskAcked(id))
  {
    PendingIff(journal, id);
    if !PendingTask(journal, id) {
      assert !TaskOpenSince(journal, i, id);
      var m :| i < m < |journal| && journal[m] == TaskAcked(id);
      AckedWasAnswered(journal, specs, m);
    }
  }

  /** Unless its id is queued again, a task stays pending as it was queued, until it is acknowledged. */
  lemma TaskStaysIntact(journal: seq<Record>, i: nat, a: nat)
    requires i < |journal| && journal[i].Commit? && a < |journal[i].tasks| && DistinctIds(journal[i].tasks)
    requires forall k :: i < k < |journal| ==> !QueuedBy(journal[k], journal[i].tasks[a].taskId)
    requires forall k :: i < k < |journal| ==> journal[k] != TaskAcked(journal[i].tasks[a].taskId)
    ensures Get(Replayed(journal).tasks, journal[i].tasks[a].taskId) == Some(journal[i].tasks[a])
  {
    var changes, id := Changes(journal, TaskChange), journal[i].tasks[a].taskId;
    ReplayIsOutstanding(journal);
    UntouchedBy(journal, TaskChange, TaskKey, i, id);
    StaysIntact(changes, TaskKey, i, a);
  }

  // ----- effects

  ghost predicate EffectQueuedBy(rec: Record, id: string)
  {
    Queues(EffectChange(rec), EffectKey, id)
  }

  /** Record `i` queued the effect and nothing acknowledged it since. */
  ghost predicate EffectOpenSince(journal: seq<Record>, i: int, id: string)
  {
    && 0 <= i < |journal| && EffectQueuedBy(journal[i], id)
    && forall m :: i < m < |journal| ==> journal[m] != EffectAcked(id)
  }

  /** An effect is pending exactly when some commit queued it and nothing acknowledged it since. */
  lemma PendingEffectIff(journal: seq<Record>, id: string)
    ensures PendingEffect(journal, id) <==> exists i :: EffectOpenSince(journal, i, id)
  {
    var changes := Changes(journal, EffectChange);
    ReplayIsOutstanding(journal);
    OutstandingIff(changes, EffectKey, id);
    forall i
      ensures OpenSince(changes, EffectKey, i, id) <==> EffectOpenSince(journal, i, id)
    {
    }
  }

  /** No effect is lost: what a commit queued is pending, or was acknowledged later. */
  lemma NoEffectLost(journal: seq<Record>, i: nat, id: string)
    requires i < |journal| && EffectQueuedBy(journal[i], id)
    ensures PendingEffect(journal, id) || exists m :: i < m < |journal| && journal[m] == EffectAcked(id)
  {
    ReplayIsOutstanding(journal);
    NothingLost(Changes(journal, EffectChange), EffectKey, i, id);
  }

  /** An effect is acknowledged only while it is pending: at most once for every time it is queued. */
  lemma EffectAckedWasPending(journal: seq<Record>, specs: seq<Spec>, j: nat)
    requires LegalRun(journal, specs) && j < |journal| && journal[j].EffectAcked?
    ensures exists i :: EffectOpenSince(journal[..j], i, journal[j].effectId)
  {
    assert LegalAt(journal, specs, j);
    PendingEffectIff(journal[..j], journal[j].effectId);
  }

  /** Unless its id is queued again, an effect stays pending as it was queued, until it is acknowledged. */
  lemma EffectStaysIntact(journal: seq<Record>, i: nat, a: nat)
    requires i < |journal| && journal[i].Commit? && a < |journal[i].effects|
    requires DistinctKeys(journal[i].effects, EffectKey)
    requires forall k :: i < k < |journal| ==> !EffectQueuedBy(journal[k], journal[i].effects[a].effectId)
    requires forall k :: i < k < |journal| ==> journal[k] != EffectAcked(journal[i].effects[a].effectId)
    ensures Get(Replayed(journal).effects, journal[i].effects[a].effectId) == Some(journal[i].effects[a])
  {
    var changes, id := Changes(journal, EffectChange), journal[i].effects[a].effectId;
    ReplayIsOutstanding(journal);
    UntouchedBy(journal, EffectChange, EffectKey, i, id);
    StaysIntact(changes, EffectKey, i, a);
  }

  // ----- versions

  function Commits(journal: seq<Record>): nat
  {
    if journal == [] then 0
    else Commits(journal[..|journal| - 1]) + if journal[|journal| - 1].Commit? then 1 else 0
  }

  /** The instance's version is the number of commits in its journal. */
  lemma {:induction false} VersionCountsCommits(journal: seq<Record>, specs: seq<Spec>)
    requires LegalRun(journal, specs)
    ensures Replayed(journal).instance.Some? ==> Replayed(journal).instance.value.version == Commits(journal)
    ensures Replayed(journal).instance.None? ==> Commits(journal) == 0
  {
    if journal == [] {
    } else {
      var n := |journal| - 1;
      LegalPrefix(journal, specs, n);
      VersionCountsCommits(journal[..n], specs[..n]);
      assert LegalAt(journal, specs, n);
    }
  }

  /** The engine never changes an instance's status: whatever the run, it is running. */
  lemma {:induction false} AlwaysRunning(journal: seq<Record>, specs: seq<Spec>)
    requires LegalRun(journal, specs)
    ensures forall spec :: Current(spec, Replayed(journal)).status == Running
  {
    if journal == [] {
    } else {
      var n := |journal| - 1;
      LegalPrefix(journal, specs, n);
      AlwaysRunning(journal[..n], specs[..n]);
      assert LegalAt(journal, specs, n);
      assert Current(specs[n], Replayed(journal[..n])).status == Running;
    }
  }

  /** A journal starts with an answer, and the input it answers meets a fresh instance. */
  lemma StartsFresh(journal: seq<Record>, specs: seq<Spec>)
    requires LegalRun(journal, specs) && journal != []
    ensures Answers(journal[0])
    ensures var spec := specs[0];
            Current(spec, Replayed(journal[..0])) ==
              Instance(spec.specId, spec.specVersion, spec.initialState, Obj(map[]), 0, Running)
  {
    assert LegalAt(journal, specs, 0) && journal[..0] == [];
  }
}

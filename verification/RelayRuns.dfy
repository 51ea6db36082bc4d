/**
 * Runs of the relay that get somewhere: every path a bundle may take is taken, the limits on retries are met, and a
 * full queue evicts.
 */
module RelayRuns {
  import opened Options
  import opened Lifecycle
  import opened RelayStore
  import opened RelayProtocol
  import opened RelayPaths

  ghost predicate Ends(maxRetries: int, run: seq<System>, s: System)
  {
    Run(maxRetries, run) && run[|run| - 1] == s
  }

  ghost predicate Reached(maxRetries: int, s: System)
  {
    exists run :: Ends(maxRetries, run, s)
  }

  lemma ReachedNext(maxRetries: int, s: System, s': System)
    requires Reached(maxRetries, s) && Step(maxRetries, s, s')
    ensures Reached(maxRetries, s')
  {
    var run :| Ends(maxRetries, run, s);
    var longer := run + [s'];
    forall i | 0 <= i < |longer| - 1
      ensures StepAt(maxRetries, longer, i)
    {
      assert i < |run| - 1 ==> StepAt(maxRetries, run, i);
    }
    assert Ends(maxRetries, longer, s');
  }

  /** One activity is at `pc` and all others have ended. */
  ghost predicate Only(s: System, a: nat, pc: Pc)
  {
    a in s.actors && s.actors[a] == pc && forall b :: b in s.actors && b != a ==> s.actors[b] == Done
  }

  ghost predicate Stage(maxRetries: int, s: System, a: nat, sh: Shared, pc: Pc)
  {
    Reached(maxRetries, s) && s.shared == sh && Only(s, a, pc)
  }

  /** A reachable state with this shared part, with one activity at `pc` and no other that has not ended. */
  ghost predicate At(maxRetries: int, sh: Shared, pc: Pc)
  {
    exists s, a: nat :: Stage(maxRetries, s, a, sh, pc)
  }

  lemma Go(maxRetries: int, sh: Shared, pc: Pc, sh': Shared, pc': Pc)
    requires At(maxRetries, sh, pc) && Proceeds(maxRetries, sh, pc, sh', pc')
    ensures At(maxRetries, sh', pc')
  {
    var s, a: nat :| Stage(maxRetries, s, a, sh, pc);
    var s' := System(sh', s.actors[a := pc']);
    ReachedNext(maxRetries, s, s');
    assert Stage(maxRetries, s', a, sh', pc');
  }

  lemma GiveUp(maxRetries: int, sh: Shared, pc: Pc, pc': Pc)
    requires At(maxRetries, sh, pc) && GivesUp(pc, pc')
    ensures At(maxRetries, sh, pc')
  {
    var s, a: nat :| Stage(maxRetries, s, a, sh, pc);
    var s' := s.(actors := s.actors[a := pc']);
    ReachedNext(maxRetries, s, s');
    assert Stage(maxRetries, s', a, sh, pc');
  }

  lemma {:induction false} FreshActor(actors: set<nat>) returns (a: nat)
    ensures forall b :: b in actors ==> b < a
    decreases actors
  {
    if actors == {} {
      a := 0;
    } else {
      var x :| x in actors;
      a := FreshActor(actors - {x});
      a := if a <= x then x + 1 else a;
      assert forall b :: b in actors ==> b == x || b in actors - {x};
    }
  }

  lemma Begin(maxRetries: int, sh: Shared, sh': Shared, pc: Pc)
    requires At(maxRetries, sh, Done) && Starts(sh, sh', pc)
    ensures At(maxRetries, sh', pc)
  {
    var s, a: nat :| Stage(maxRetries, s, a, sh, Done);
    var b := FreshActor(s.actors.Keys);
    var s' := System(sh', s.actors[b := pc]);
    assert b !in s.actors;
    ReachedNext(maxRetries, s, s');
    assert Stage(maxRetries, s', b, sh', pc);
  }

  const EMPTY: Shared := Shared(map[], map[], {}, multiset{}, map[])

  lemma BeginFirst(maxRetries: int, id: BundleId)
    ensures At(maxRetries, EMPTY, SubmitCreate(id))
  {
    var s := System(EMPTY, map[]);
    assert Ends(maxRetries, [s], s);
    var s' := System(EMPTY, map[0 := SubmitCreate(id)]);
    var pc, a: nat := SubmitCreate(id), 0;
    assert a !in s.actors && Starts(s.shared, s'.shared, pc) && s'.actors == s.actors[a := pc];
    ReachedNext(maxRetries, s, s');
    assert Stage(maxRetries, s', 0, EMPTY, SubmitCreate(id));
  }

  // ----- one bundle

  function One(id: BundleId, rec: Record, h: seq<BundleState>, queue: multiset<BundleId>,
               retries: set<BundleId>): Shared
  {
    Shared(map[id := rec], map[id.hash := id], retries, queue, map[id := h])
  }

  /** The bundle is the only one, its activity is at `pc`, and no retry is scheduled. */
  ghost predicate In(maxRetries: int, id: BundleId, rec: Record, h: seq<BundleState>, queue: multiset<BundleId>, pc: Pc)
  {
    At(maxRetries, One(id, rec, h, queue, {}), pc)
  }

  /** The activities that take a bundle from one state to another, and where they go on. */
  ghost predicate Takes(pc: Pc, id: BundleId, rec: Record, to: BundleState, pc': Pc)
  {
    || (pc == SubmitValidate(id) && rec.state == Received && to == Validated && pc' == SubmitDecide(id))
    || (pc == SubmitQueue(id) && rec.state == Validated && to == Queued && pc' == Done)
    || (pc == ProcessPick(id) && rec.state == Queued && to == Simulating && pc' == Simulate(id, rec.retryCount))
    || (pc == ToRetry(id, rec.retryCount) && rec.state == Simulating && to == RetryPending
        && pc' == CountRetry(id, rec.retryCount))
    || (pc == ToSimulated(id) && rec.state == Simulating && to == Simulated && pc' == ToScored(id))
    || (pc == RetryQueue(id) && rec.state == RetryPending && to == Queued && pc' == RetryPush(id))
    || (pc == ToScored(id) && rec.state == Simulated && to == Scored && pc' == ToVerdict(id))
    || (pc == ToVerdict(id) && rec.state == Scored && (to == Forwarded || to == Rejected)
        && pc' == RecordResult(id, to))
    || (pc.Persist? && pc == Persist(id, rec.state, pc.next) && IsOutcome(rec.state) && to == Persisted
        && pc' == Complete(id, pc.next))
    || (pc.Complete? && pc == Complete(id, pc.next) && rec.state == Persisted && to == Completed && pc' == pc.next)
    || (pc.Settle? && pc == Settle(id, rec.state, to, pc.next) && IsOutcome(to) && CanTransition(rec.state, to)
        && pc' == Persist(id, to, pc.next))
  }

  lemma TakesProceeds(maxRetries: int, sh: Shared, pc: Pc, id: BundleId, to: BundleState, pc': Pc)
    requires id in sh.records && id in sh.history && Takes(pc, id, sh.records[id], to, pc')
    ensures Proceeds(maxRetries, sh, pc, Moved(sh, id, to), pc')
  {
  }

  lemma MovedOne(id: BundleId, rec: Record, h: seq<BundleState>, queue: multiset<BundleId>, to: BundleState)
    ensures Moved(One(id, rec, h, queue, {}), id, to) == One(id, Transitioned(rec, to), h + [to], queue, {})
  {
  }

  lemma MoveTo(maxRetries: int, id: BundleId, rec: Record, h: seq<BundleState>, queue: multiset<BundleId>, pc: Pc,
               to: BundleState, pc': Pc)
    requires In(maxRetries, id, rec, h, queue, pc) && Takes(pc, id, rec, to, pc')
    ensures In(maxRetries, id, Transitioned(rec, to), h + [to], queue, pc')
  {
    var sh := One(id, rec, h, queue, {});
    TakesProceeds(maxRetries, sh, pc, id, to, pc');
    MovedOne(id, rec, h, queue, to);
    Go(maxRetries, sh, pc, Moved(sh, id, to), pc');
  }

  lemma DecideTo(maxRetries: int, id: BundleId, rec: Record, h: seq<BundleState>, queue: multiset<BundleId>, pc: Pc,
                 pc': Pc)
    requires In(maxRetries, id, rec, h, queue, pc)
    requires DecideStep(maxRetries, One(id, rec, h, queue, {}), pc, One(id, rec, h, queue, {}), pc')
    ensures In(maxRetries, id, rec, h, queue, pc')
  {
    Go(maxRetries, One(id, rec, h, queue, {}), pc, One(id, rec, h, queue, {}), pc');
  }

  lemma PushTo(maxRetries: int, id: BundleId, rec: Record, h: seq<BundleState>, pc: Pc, next: Pc)
    requires In(maxRetries, id, rec, h, multiset{}, pc)
    requires (pc == SubmitDecide(id) && next == SubmitQueue(id)) || (pc == RetryPush(id) && next == Done)
    ensures In(maxRetries, id, rec, h, multiset{id}, next)
  {
    var sh, queued := One(id, rec, h, multiset{}, {}), One(id, rec, h, multiset{id}, {});
    assert PushNext(sh, id, next, queued, next);
    assert DecideStep(maxRetries, sh, pc, queued, next);
    Go(maxRetries, sh, pc, queued, next);
  }

  lemma RewriteTo(maxRetries: int, id: BundleId, rec: Record, h: seq<BundleState>, pc: Pc, rec': Record, pc': Pc)
    requires In(maxRetries, id, rec, h, multiset{}, pc)
    requires WriteStep(One(id, rec, h, multiset{}, {}), pc, One(id, rec', h, multiset{}, {}), pc')
    ensures In(maxRetries, id, rec', h, multiset{}, pc')
  {
    Go(maxRetries, One(id, rec, h, multiset{}, {}), pc, One(id, rec', h, multiset{}, {}), pc');
  }

  lemma PopTo(maxRetries: int, id: BundleId, rec: Record, h: seq<BundleState>)
    requires In(maxRetries, id, rec, h, multiset{id}, Done)
    ensures In(maxRetries, id, rec, h, multiset{}, ProcessStart(id))
  {
    var sh, queued := One(id, rec, h, multiset{}, {}), One(id, rec, h, multiset{id}, {});
    Begin(maxRetries, queued, sh, ProcessStart(id));
  }

  /** The retry is scheduled and claimed. */
  lemma ClaimTo(maxRetries: int, id: BundleId, rec: Record, h: seq<BundleState>)
    requires In(maxRetries, id, rec, h, multiset{}, ScheduleRetry(id))
    ensures In(maxRetries, id, rec, h, multiset{}, RetryStart(id))
  {
    var sh, scheduled := One(id, rec, h, multiset{}, {}), One(id, rec, h, multiset{}, {id});
    assert ScheduleStep(sh, ScheduleRetry(id), scheduled, Done);
    Go(maxRetries, sh, ScheduleRetry(id), scheduled, Done);
    Begin(maxRetries, scheduled, sh, RetryStart(id));
  }

  // ----- where a bundle stands on its path

  /** Where its activity is. */
  ghost function PcFor(id: BundleId, state: BundleState, sims: int, retries: int): Pc
  {
    match state
    case Received => SubmitValidate(id)
    case Validated => SubmitDecide(id)
    case Queued => if retries > 0 then RetryPush(id) else Done
    case Simulating => Simulate(id, sims - 1)
    case RetryPending => CountRetry(id, sims - 1)
    case Simulated => ToScored(id)
    case Scored => ToVerdict(id)
    case Persisted => Complete(id, Done)
    case Completed => Done
    case outcome => Persist(id, outcome, Done)
  }

  ghost function QueueFor(id: BundleId, state: BundleState, retries: int): multiset<BundleId>
  {
    if state == Queued && retries == 0 then multiset{id} else multiset{}
  }

  /** Its record shows the retries counted by then. */
  ghost predicate CountFor(rec: Record, sims: int, retries: int)
  {
    match rec.state
    case Received => rec.retryCount == sims == retries == 0
    case Validated => rec.retryCount == sims == retries == 0
    case Queued => rec.retryCount == sims == retries >= 0
    case RetryPending => rec.retryCount == sims - 1 == retries - 1
    case _ => rec.retryCount == retries && (Dead(rec.state) || retries == sims - 1)
  }

  ghost predicate Situation(maxRetries: int, id: BundleId, rec: Record, h: seq<BundleState>, sims: int, retries: int)
  {
    && |h| > 0 && rec.state == h[|h| - 1] && CountFor(rec, sims, retries)
    && In(maxRetries, id, rec, h, QueueFor(id, rec.state, retries), PcFor(id, rec.state, sims, retries))
  }

  ghost function Retries(h: seq<BundleState>): nat
  {
    multiset(h)[RetryPending]
  }

  lemma RetriesMove(h: seq<BundleState>, to: BundleState)
    ensures Retries(h + [to]) == Retries(h) + if to == RetryPending then 1 else 0
  {
  }

  ghost predicate Stands(maxRetries: int, id: BundleId, h: seq<BundleState>)
  {
    exists rec :: Situation(maxRetries, id, rec, h, Simulations(h), Retries(h))
  }

  lemma NowStands(maxRetries: int, id: BundleId, rec: Record, h: seq<BundleState>, to: BundleState, sims: int,
                  retries: int, queue: multiset<BundleId>, pc: Pc)
    requires sims == Simulations(h) + if to == Simulating then 1 else 0
    requires retries == Retries(h) + if to == RetryPending then 1 else 0
    requires rec.state == to && CountFor(rec, sims, retries)
    requires queue == QueueFor(id, to, retries) && pc == PcFor(id, to, sims, retries)
    requires In(maxRetries, id, rec, h + [to], queue, pc)
    ensures Stands(maxRetries, id, h + [to])
  {
    SimulationsMove(h, to);
    RetriesMove(h, to);
    assert Situation(maxRetries, id, rec, h + [to], sims, retries);
  }

  lemma CreateStands(maxRetries: int, id: BundleId)
    ensures Stands(maxRetries, id, [Received])
  {
    var rec := NewRecord(id, 0);
    BeginFirst(maxRetries, id);
    var sh := One(id, rec, [Received], multiset{}, {});
    assert sh == Created(EMPTY, id, 0);
    assert CreateStep(EMPTY, SubmitCreate(id), sh, SubmitValidate(id));
    Go(maxRetries, EMPTY, SubmitCreate(id), sh, SubmitValidate(id));
    assert Simulations([Received]) == Retries([Received]) == 0;
    assert Situation(maxRetries, id, rec, [Received], 0, 0);
  }

  /** Giving a bundle up from where it is. */
  lemma SettleStands(maxRetries: int, id: BundleId, rec: Record, h: seq<BundleState>, terminal: BundleState)
    requires |h| > 0 && CanTransition(rec.state, terminal) && IsOutcome(terminal) && rec.retryCount == Retries(h)
    requires In(maxRetries, id, rec, h, multiset{}, Settle(id, rec.state, terminal, Done))
    ensures Stands(maxRetries, id, h + [terminal])
  {
    MoveTo(maxRetries, id, rec, h, multiset{}, Settle(id, rec.state, terminal, Done), terminal,
           Persist(id, terminal, Done));
    NowStands(maxRetries, id, Transitioned(rec, terminal), h, terminal, Simulations(h), Retries(h),
              multiset{}, Persist(id, terminal, Done));
  }

  /** Validated, scored, persisted, completed. */
  lemma SingleStands(maxRetries: int, id: BundleId, rec: Record, h: seq<BundleState>, to: BundleState, sims: int,
                     retries: int)
    requires sims == Simulations(h) && retries == Retries(h)
    requires Situation(maxRetries, id, rec, h, sims, retries) && MayFollow(maxRetries, h, to)
    requires to == Validated || to == Scored || to == Persisted || to == Completed
    ensures Stands(maxRetries, id, h + [to])
  {
    MoveTo(maxRetries, id, rec, h, multiset{}, PcFor(id, rec.state, sims, retries), to, PcFor(id, to, sims, retries));
    NowStands(maxRetries, id, Transitioned(rec, to), h, to, sims, retries, multiset{}, PcFor(id, to, sims, retries));
  }

  lemma SubmitStands(maxRetries: int, id: BundleId, rec: Record, h: seq<BundleState>, sims: int)
    requires sims == Simulations(h) && Retries(h) == 0
    requires Situation(maxRetries, id, rec, h, sims, 0) && rec.state == Validated
    ensures Stands(maxRetries, id, h + [Queued])
  {
    PushTo(maxRetries, id, rec, h, SubmitDecide(id), SubmitQueue(id));
    MoveTo(maxRetries, id, rec, h, multiset{id}, SubmitQueue(id), Queued, Done);
    NowStands(maxRetries, id, Transitioned(rec, Queued), h, Queued, sims, 0, multiset{id}, Done);
  }

  lemma RefusedStands(maxRetries: int, id: BundleId, rec: Record, h: seq<BundleState>, sims: int, retries: int)
    requires retries == Retries(h)
    requires Situation(maxRetries, id, rec, h, sims, retries) && rec.state == Validated
    ensures Stands(maxRetries, id, h + [Rejected])
  {
    DecideTo(maxRetries, id, rec, h, multiset{}, SubmitDecide(id), Settle(id, Validated, Rejected, Done));
    SettleStands(maxRetries, id, rec, h, Rejected);
  }

  /** A queued bundle is popped by a worker. */
  lemma Popped(maxRetries: int, id: BundleId, rec: Record, h: seq<BundleState>, sims: int, retries: int)
    requires Situation(maxRetries, id, rec, h, sims, retries) && rec.state == Queued
    ensures In(maxRetries, id, rec, h, multiset{}, ProcessStart(id))
  {
    if retries > 0 {
      PushTo(maxRetries, id, rec, h, RetryPush(id), Done);
    }
    PopTo(maxRetries, id, rec, h);
  }

  lemma PickedStands(maxRetries: int, id: BundleId, rec: Record, h: seq<BundleState>, sims: int, retries: int)
    requires sims == Simulations(h) && retries == Retries(h)
    requires Situation(maxRetries, id, rec, h, sims, retries) && rec.state == Queued
    ensures Stands(maxRetries, id, h + [Simulating])
  {
    Popped(maxRetries, id, rec, h, sims, retries);
    DecideTo(maxRetries, id, rec, h, multiset{}, ProcessStart(id), ProcessPick(id));
    MoveTo(maxRetries, id, rec, h, multiset{}, ProcessPick(id), Simulating, Simulate(id, rec.retryCount));
    NowStands(maxRetries, id, Transitioned(rec, Simulating), h, Simulating, sims + 1, retries, multiset{},
              Simulate(id, sims));
  }

  lemma DroppedStands(maxRetries: int, id: BundleId, rec: Record, h: seq<BundleState>, sims: int, retries: int)
    requires retries == Retries(h)
    requires Situation(maxRetries, id, rec, h, sims, retries) && rec.state == Queued
    ensures Stands(maxRetries, id, h + [Rejected])
    ensures retries > 0 ==> Stands(maxRetries, id, h + [DeadLetter])
  {
    if retries > 0 {
      DecideTo(maxRetries, id, rec, h, multiset{}, RetryPush(id), Settle(id, Queued, DeadLetter, Done));
      SettleStands(maxRetries, id, rec, h, DeadLetter);
    }
    Popped(maxRetries, id, rec, h, sims, retries);
    DecideTo(maxRetries, id, rec, h, multiset{}, ProcessStart(id), Settle(id, Queued, Rejected, Done));
    SettleStands(maxRetries, id, rec, h, Rejected);
  }

  lemma SimulatedTo(maxRetries: int, id: BundleId, rec: Record, h: seq<BundleState>, count: int)
    requires rec.state == Simulating && In(maxRetries, id, rec, h, multiset{}, Simulate(id, count))
    ensures In(maxRetries, id, Transitioned(rec, Simulated), h + [Simulated], multiset{}, ToScored(id))
  {
    DecideTo(maxRetries, id, rec, h, multiset{}, Simulate(id, count), ToSimulated(id));
    MoveTo(maxRetries, id, rec, h, multiset{}, ToSimulated(id), Simulated, ToScored(id));
  }

  lemma SimulatedStands(maxRetries: int, id: BundleId, rec: Record, h: seq<BundleState>, sims: int, retries: int)
    requires sims == Simulations(h) && retries == Retries(h)
    requires Situation(maxRetries, id, rec, h, sims, retries) && rec.state == Simulating
    ensures Stands(maxRetries, id, h + [Simulated])
  {
    SimulatedTo(maxRetries, id, rec, h, sims - 1);
    NowStands(maxRetries, id, Transitioned(rec, Simulated), h, Simulated, sims, retries, multiset{}, ToScored(id));
  }

  lemma FailedStands(maxRetries: int, id: BundleId, rec: Record, h: seq<BundleState>, sims: int, retries: int)
    requires retries == Retries(h)
    requires Situation(maxRetries, id, rec, h, sims, retries) && rec.state == Simulating
    ensures Stands(maxRetries, id, h + [DeadLetter])
  {
    DecideTo(maxRetries, id, rec, h, multiset{}, Simulate(id, sims - 1), Settle(id, Simulating, DeadLetter, Done));
    SettleStands(maxRetries, id, rec, h, DeadLetter);
  }

  lemma TransientTo(maxRetries: int, id: BundleId, rec: Record, h: seq<BundleState>, count: int)
    requires count + 1 <= maxRetries && rec.state == Simulating && rec.retryCount == count
    requires In(maxRetries, id, rec, h, multiset{}, Simulate(id, count))
    ensures In(maxRetries, id, Transitioned(rec, RetryPending), h + [RetryPending], multiset{}, CountRetry(id, count))
  {
    DecideTo(maxRetries, id, rec, h, multiset{}, Simulate(id, count), ToRetry(id, count));
    MoveTo(maxRetries, id, rec, h, multiset{}, ToRetry(id, count), RetryPending, CountRetry(id, count));
  }

  lemma TransientStands(maxRetries: int, id: BundleId, rec: Record, h: seq<BundleState>, sims: int, retries: int)
    requires sims == Simulations(h) <= maxRetries && retries == Retries(h)
    requires Situation(maxRetries, id, rec, h, sims, retries) && rec.state == Simulating
    ensures Stands(maxRetries, id, h + [RetryPending])
  {
    TransientTo(maxRetries, id, rec, h, sims - 1);
    NowStands(maxRetries, id, Transitioned(rec, RetryPending), h, RetryPending, sims, retries + 1, multiset{},
              CountRetry(id, sims - 1));
  }

  lemma RecordTo(maxRetries: int, id: BundleId, rec: Record, h: seq<BundleState>, verdict: BundleState)
    returns (written: Record)
    requires In(maxRetries, id, rec, h, multiset{}, RecordResult(id, verdict))
    ensures written == rec.(version := rec.version + 1)
    ensures In(maxRetries, id, written, h, multiset{}, Persist(id, verdict, Done))
  {
    written := rec.(version := rec.version + 1);
    RewriteTo(maxRetries, id, rec, h, RecordResult(id, verdict), written, Persist(id, verdict, Done));
  }

  /** The verdict, and its result recorded. */
  lemma VerdictTo(maxRetries: int, id: BundleId, rec: Record, h: seq<BundleState>, verdict: BundleState)
    returns (written: Record)
    requires In(maxRetries, id, rec, h, multiset{}, ToVerdict(id))
    requires rec.state == Scored && (verdict == Forwarded || verdict == Rejected)
    ensures written.state == verdict && written.retryCount == rec.retryCount
    ensures In(maxRetries, id, written, h + [verdict], multiset{}, Persist(id, verdict, Done))
  {
    MoveTo(maxRetries, id, rec, h, multiset{}, ToVerdict(id), verdict, RecordResult(id, verdict));
    written := RecordTo(maxRetries, id, Transitioned(rec, verdict), h + [verdict], verdict);
  }

  lemma VerdictStands(maxRetries: int, id: BundleId, rec: Record, h: seq<BundleState>, verdict: BundleState,
                      sims: int, retries: int)
    requires sims == Simulations(h) && retries == Retries(h)
    requires Situation(maxRetries, id, rec, h, sims, retries)
    requires rec.state == Scored && (verdict == Forwarded || verdict == Rejected)
    ensures Stands(maxRetries, id, h + [verdict])
  {
    var written := VerdictTo(maxRetries, id, rec, h, verdict);
    NowStands(maxRetries, id, written, h, verdict, sims, retries, multiset{}, Persist(id, verdict, Done));
  }

  /** The retry is counted. */
  lemma CountTo(maxRetries: int, id: BundleId, rec: Record, h: seq<BundleState>, sims: int, retries: int)
    returns (counted: Record)
    requires Situation(maxRetries, id, rec, h, sims, retries) && rec.state == RetryPending
    ensures counted.state == RetryPending && counted.retryCount == sims == retries
    ensures In(maxRetries, id, counted, h, multiset{}, ScheduleRetry(id))
  {
    counted := Recounted(rec, sims);
    RewriteTo(maxRetries, id, rec, h, CountRetry(id, sims - 1), counted, ScheduleRetry(id));
  }

  lemma RequeuedStands(maxRetries: int, id: BundleId, rec: Record, h: seq<BundleState>, sims: int, retries: int)
    requires sims == Simulations(h) < maxRetries && retries == Retries(h)
    requires Situation(maxRetries, id, rec, h, sims, retries) && rec.state == RetryPending
    ensures Stands(maxRetries, id, h + [Queued])
  {
    var counted := CountTo(maxRetries, id, rec, h, sims, retries);
    ClaimTo(maxRetries, id, counted, h);
    DecideTo(maxRetries, id, counted, h, multiset{}, RetryStart(id), RetryQueue(id));
    MoveTo(maxRetries, id, counted, h, multiset{}, RetryQueue(id), Queued, RetryPush(id));
    NowStands(maxRetries, id, Transitioned(counted, Queued), h, Queued, sims, retries, multiset{}, RetryPush(id));
  }

  /** Retries are exhausted, or the retry cannot be scheduled. */
  lemma ExhaustedStands(maxRetries: int, id: BundleId, rec: Record, h: seq<BundleState>, sims: int, retries: int)
    requires retries == Retries(h)
    requires Situation(maxRetries, id, rec, h, sims, retries) && rec.state == RetryPending
    ensures Stands(maxRetries, id, h + [DeadLetter])
  {
    var counted := CountTo(maxRetries, id, rec, h, sims, retries);
    if sims < maxRetries {
      DecideTo(maxRetries, id, counted, h, multiset{}, ScheduleRetry(id), Settle(id, RetryPending, DeadLetter, Done));
    } else {
      ClaimTo(maxRetries, id, counted, h);
      DecideTo(maxRetries, id, counted, h, multiset{}, RetryStart(id), Settle(id, RetryPending, DeadLetter, Done));
    }
    SettleStands(maxRetries, id, counted, h, DeadLetter);
  }

  lemma NextStands(maxRetries: int, id: BundleId, h: seq<BundleState>, to: BundleState)
    requires |h| > 0 && Stands(maxRetries, id, h) && MayFollow(maxRetries, h, to)
    requires h[|h| - 1] == Validated ==> Retries(h) == 0
    ensures Stands(maxRetries, id, h + [to])
  {
    var sims, retries := Simulations(h), Retries(h);
    var rec :| Situation(maxRetries, id, rec, h, sims, retries);
    match to
    case Queued =>
      if rec.state == Validated {
        SubmitStands(maxRetries, id, rec, h, sims);
      } else {
        RequeuedStands(maxRetries, id, rec, h, sims, retries);
      }
    case Simulating => PickedStands(maxRetries, id, rec, h, sims, retries);
    case Simulated => SimulatedStands(maxRetries, id, rec, h, sims, retries);
    case RetryPending => TransientStands(maxRetries, id, rec, h, sims, retries);
    case Forwarded => VerdictStands(maxRetries, id, rec, h, Forwarded, sims, retries);
    case Rejected =>
      if rec.state == Validated {
        RefusedStands(maxRetries, id, rec, h, sims, retries);
      } else if rec.state == Queued {
        DroppedStands(maxRetries, id, rec, h, sims, retries);
      } else {
        VerdictStands(maxRetries, id, rec, h, Rejected, sims, retries);
      }
    case DeadLetter =>
      if rec.state == Queued {
        DroppedStands(maxRetries, id, rec, h, sims, retries);
      } else if rec.state == Simulating {
        FailedStands(maxRetries, id, rec, h, sims, retries);
      } else {
        ExhaustedStands(maxRetries, id, rec, h, sims, retries);
      }
    case _ => SingleStands(maxRetries, id, rec, h, to, sims, retries);
  }

  lemma PathFront(maxRetries: int, h: seq<BundleState>, front: seq<BundleState>, to: BundleState)
    requires RelayPath(maxRetries, h) && |h| > 1 && front == h[..|h| - 1] && to == h[|h| - 1]
    ensures h == front + [to] && |front| > 0 && RelayPath(maxRetries, front) && MayFollow(maxRetries, front, to)
  {
  }

  lemma {:induction false} EarlyUnretried(maxRetries: int, h: seq<BundleState>)
    requires RelayPath(maxRetries, h) && |h| > 0 && (h[|h| - 1] == Received || h[|h| - 1] == Validated)
    ensures Retries(h) == 0
  {
    if |h| > 1 {
      var front, to := h[..|h| - 1], h[|h| - 1];
      PathFront(maxRetries, h, front, to);
      EarlyUnretried(maxRetries, front);
      RetriesMove(front, to);
    }
  }

  lemma {:induction false} PathStands(maxRetries: int, id: BundleId, h: seq<BundleState>)
    requires RelayPath(maxRetries, h)
    ensures Stands(maxRetries, id, h)
  {
    if |h| <= 1 {
      CreateStands(maxRetries, id);
    } else {
      var front, to := h[..|h| - 1], h[|h| - 1];
      PathFront(maxRetries, h, front, to);
      PathStands(maxRetries, id, front);
      FrontStands(maxRetries, id, front, to);
    }
  }

  lemma FrontStands(maxRetries: int, id: BundleId, front: seq<BundleState>, to: BundleState)
    requires |front| > 0 && RelayPath(maxRetries, front) && Stands(maxRetries, id, front)
    requires MayFollow(maxRetries, front, to)
    ensures Stands(maxRetries, id, front + [to])
  {
    if front[|front| - 1] == Validated {
      EarlyUnretried(maxRetries, front);
    }
    NextStands(maxRetries, id, front, to);
  }

  // ----- the paths of bundles

  /** The run ends with the bundle at the end of path `h`, with no activity left. */
  ghost predicate EndsWith(maxRetries: int, run: seq<System>, id: BundleId, h: seq<BundleState>)
  {
    && Run(maxRetries, run)
    && var s := run[|run| - 1];
       && id in s.shared.records && id in s.shared.history && s.shared.history[id] == h
       && (forall a :: a in s.actors ==> s.actors[a] == Done)
  }

  /** In some run a bundle has come along `h`. */
  ghost predicate OnPath(maxRetries: int, run: seq<System>, i: int, id: BundleId, h: seq<BundleState>)
  {
    Run(maxRetries, run) && 0 <= i < |run| && id in run[i].shared.history && run[i].shared.history[id] == h
  }

  /** A run along `h`, in which the bundle is left where it is, with its retries counted. */
  lemma PathRuns(maxRetries: int, id: BundleId, h: seq<BundleState>) returns (run: seq<System>)
    requires RelayPath(maxRetries, h)
    ensures EndsWith(maxRetries, run, id, h)
    ensures h[|h| - 1] != RetryPending ==> run[|run| - 1].shared.records[id].retryCount == Retries(h)
  {
    PathStands(maxRetries, id, h);
    var sims, retries := Simulations(h), Retries(h);
    var rec :| Situation(maxRetries, id, rec, h, sims, retries);
    var sh, pc := One(id, rec, h, QueueFor(id, rec.state, retries), {}), PcFor(id, rec.state, sims, retries);
    GiveUp(maxRetries, sh, pc, Done);
    var s, a: nat :| Stage(maxRetries, s, a, sh, Done);
    run :| Ends(maxRetries, run, s);
  }

  /**
   * The paths bundles take, over all runs, are exactly the relay's: whatever the interleaving no bundle leaves them,
   * and along each of them some run takes a bundle and leaves it at its end.
   */
  lemma PathsExactly(maxRetries: int, h: seq<BundleState>)
    ensures RelayPath(maxRetries, h) <==> exists run, i, id :: OnPath(maxRetries, run, i, id, h)
    ensures RelayPath(maxRetries, h) <==> exists run, id :: EndsWith(maxRetries, run, id, h)
  {
    if run: seq<System>, i, id :| OnPath(maxRetries, run, i, id, h) {
      RunPaths(maxRetries, run, i);
      assert PathOk(maxRetries, run[i].shared, id);
    }
    if run: seq<System>, id :| EndsWith(maxRetries, run, id, h) {
      RunPaths(maxRetries, run, |run| - 1);
      assert PathOk(maxRetries, run[|run| - 1].shared, id);
    }
    if RelayPath(maxRetries, h) {
      var id := BundleId("", 0);
      var run := PathRuns(maxRetries, id, h);
      assert OnPath(maxRetries, run, |run| - 1, id, h);
    }
  }

  // ----- the limits are met

  /** In the run's last state the bundle is completed, with this terminal, number of simulations and retry count. */
  ghost predicate Finishes(maxRetries: int, run: seq<System>, id: BundleId, terminal: BundleState, simulations: int,
                           retryCount: int)
  {
    && Run(maxRetries, run)
    && var sh := run[|run| - 1].shared;
       && id in sh.records && id in sh.history && Simulations(sh.history[id]) == simulations
       && sh.records[id].state == Completed && sh.records[id].terminal == Some(terminal)
       && sh.records[id].retryCount == retryCount
  }

  /** Queued after `n` retries. */
  ghost function Retrying(n: nat): (h: seq<BundleState>)
    ensures |h| >= 3 && h[|h| - 1] == Queued && Simulations(h) == Retries(h) == n
  {
    if n == 0 then [Received, Validated, Queued] else Retrying(n - 1) + [Simulating, RetryPending, Queued]
  }

  /** Appending one state after another, as long as each may follow. */
  ghost predicate Continues(maxRetries: int, h: seq<BundleState>, more: seq<BundleState>)
    requires |h| > 0
    decreases |more|
  {
    more == [] || (MayFollow(maxRetries, h, more[0]) && Continues(maxRetries, h + [more[0]], more[1..]))
  }

  lemma {:induction false} ContinuedIsPath(maxRetries: int, h: seq<BundleState>, more: seq<BundleState>)
    requires RelayPath(maxRetries, h) && |h| > 0 && Continues(maxRetries, h, more)
    ensures RelayPath(maxRetries, h + more)
    decreases |more|
  {
    if more == [] {
      assert h + more == h;
    } else {
      assert (h + [more[0]])[..|h|] == h;
      ContinuedIsPath(maxRetries, h + [more[0]], more[1..]);
      assert h + [more[0]] + more[1..] == h + more;
    }
  }

  lemma {:induction false} RetryingIsPath(maxRetries: int, n: nat)
    requires n == 0 || n < maxRetries
    ensures RelayPath(maxRetries, Retrying(n))
  {
    if n == 0 {
      FirstQueuing(maxRetries);
    } else {
      RetryingIsPath(maxRetries, n - 1);
      RetryContinues(maxRetries, Retrying(n - 1));
      ContinuedIsPath(maxRetries, Retrying(n - 1), [Simulating, RetryPending, Queued]);
    }
  }

  lemma FirstQueuing(maxRetries: int)
    ensures RelayPath(maxRetries, [Received, Validated, Queued])
  {
    var r := [Received];
    assert Continues(maxRetries, r, [Validated, Queued]) by {
      assert Continues(maxRetries, r + [Validated], [Queued]);
    }
    ContinuedIsPath(maxRetries, r, [Validated, Queued]);
    assert r + [Validated, Queued] == [Received, Validated, Queued];
  }

  lemma RetryContinues(maxRetries: int, h: seq<BundleState>)
    requires |h| > 0 && h[|h| - 1] == Queued && Simulations(h) + 1 < maxRetries
    ensures Continues(maxRetries, h, [Simulating, RetryPending, Queued])
  {
    var h1 := h + [Simulating];
    var h2 := h1 + [RetryPending];
    SimulationsMove(h, Simulating);
    SimulationsMove(h1, RetryPending);
    assert Continues(maxRetries, h2, [Queued]);
    assert Continues(maxRetries, h1, [RetryPending, Queued]);
  }

  lemma ForwardContinues(maxRetries: int, h: seq<BundleState>)
    requires |h| > 0 && h[|h| - 1] == Queued
    ensures Continues(maxRetries, h, [Simulating, Simulated, Scored, Forwarded, Persisted, Completed])
  {
    var h1 := h + [Simulating];
    var h2 := h1 + [Simulated];
    var h3 := h2 + [Scored];
    var h4 := h3 + [Forwarded];
    var h5 := h4 + [Persisted];
    assert Continues(maxRetries, h5, [Completed]);
    assert Continues(maxRetries, h4, [Persisted, Completed]);
    assert Continues(maxRetries, h3, [Forwarded, Persisted, Completed]);
    assert Continues(maxRetries, h2, [Scored, Forwarded, Persisted, Completed]);
    assert Continues(maxRetries, h1, [Simulated, Scored, Forwarded, Persisted, Completed]);
  }

  lemma DeadLetterContinues(maxRetries: int, h: seq<BundleState>)
    requires |h| > 0 && (h[|h| - 1] == Simulating || h[|h| - 1] == RetryPending)
    ensures Continues(maxRetries, h, [DeadLetter, Persisted, Completed])
  {
    var h1 := h + [DeadLetter];
    var h2 := h1 + [Persisted];
    assert Continues(maxRetries, h2, [Completed]);
    assert Continues(maxRetries, h1, [Persisted, Completed]);
  }

  lemma PathFinishes(maxRetries: int, id: BundleId, h: seq<BundleState>, i: nat) returns (run: seq<System>)
    requires RelayPath(maxRetries, h) && |h| > 0 && h[|h| - 1] == Completed && i < |h| && IsOutcome(h[i])
    ensures Finishes(maxRetries, run, id, h[i], Simulations(h), Retries(h))
  {
    run := PathRuns(maxRetries, id, h);
    RelaySafety(maxRetries, run, |run| - 1, id);
  }

  /** The path goes on to an outcome and is completed. */
  lemma FinishFrom(maxRetries: int, id: BundleId, h: seq<BundleState>, more: seq<BundleState>, terminal: BundleState)
    returns (run: seq<System>)
    requires |h| > 0 && RelayPath(maxRetries, h) && Continues(maxRetries, h, more + [terminal, Persisted, Completed])
    requires IsOutcome(terminal)
    ensures Finishes(maxRetries, run, id, terminal, Simulations(h + more), Retries(h + more))
  {
    var end := [terminal, Persisted, Completed];
    ContinuedIsPath(maxRetries, h, more + end);
    var path := h + more + end;
    assert h + (more + end) == path;
    assert path[|h + more|] == terminal;
    EndCounts(h + more, terminal);
    run := PathFinishes(maxRetries, id, path, |h + more|);
  }

  lemma EndCounts(h: seq<BundleState>, terminal: BundleState)
    requires IsOutcome(terminal)
    ensures Simulations(h + [terminal, Persisted, Completed]) == Simulations(h)
    ensures Retries(h + [terminal, Persisted, Completed]) == Retries(h)
  {
  }

  /** The bound on simulations is met, by a bundle that is forwarded in the end after all its retries but one. */
  lemma ForwardedAtLast(maxRetries: int, id: BundleId) returns (run: seq<System>)
    ensures var most := if maxRetries > 1 then maxRetries else 1;
            Finishes(maxRetries, run, id, Forwarded, most, most - 1)
  {
    var n := Allowed(maxRetries) - 1;
    RetryingIsPath(maxRetries, n);
    run := ForwardedFrom(maxRetries, id, Retrying(n), n);
  }

  lemma ForwardedFrom(maxRetries: int, id: BundleId, h: seq<BundleState>, n: nat) returns (run: seq<System>)
    requires |h| > 0 && RelayPath(maxRetries, h) && h[|h| - 1] == Queued && Simulations(h) == Retries(h) == n
    ensures Finishes(maxRetries, run, id, Forwarded, n + 1, n)
  {
    var more := [Simulating, Simulated, Scored];
    ForwardContinues(maxRetries, h);
    assert more + [Forwarded, Persisted, Completed] ==
           [Simulating, Simulated, Scored, Forwarded, Persisted, Completed];
    run := FinishFrom(maxRetries, id, h, more, Forwarded);
    assert Simulations(h + more) == n + 1 && Retries(h + more) == n;
  }

  /** A bundle whose simulations all fail is dead-lettered when exactly `maxRetries` retries were counted. */
  lemma DeadLetteredAtLast(maxRetries: int, id: BundleId) returns (run: seq<System>)
    ensures Finishes(maxRetries, run, id, DeadLetter, if maxRetries > 1 then maxRetries else 1,
                     if maxRetries > 0 then maxRetries else 0)
  {
    var n := Allowed(maxRetries) - 1;
    RetryingIsPath(maxRetries, n);
    FailedIsPath(maxRetries, n);
    run := DeadLetteredFrom(maxRetries, id, FailedPath(maxRetries, n));
  }

  lemma DeadLetteredFrom(maxRetries: int, id: BundleId, h: seq<BundleState>) returns (run: seq<System>)
    requires |h| > 0 && RelayPath(maxRetries, h) && (h[|h| - 1] == Simulating || h[|h| - 1] == RetryPending)
    ensures Finishes(maxRetries, run, id, DeadLetter, Simulations(h), Retries(h))
  {
    DeadLetterContinues(maxRetries, h);
    assert [] + [DeadLetter, Persisted, Completed] == [DeadLetter, Persisted, Completed];
    run := FinishFrom(maxRetries, id, h, [], DeadLetter);
    assert h + [] == h;
  }

  /** The last simulation fails, and is to be retried when that is allowed. */
  ghost function FailedPath(maxRetries: int, n: nat): (h: seq<BundleState>)
    ensures |h| > 0 && Simulations(h) == n + 1 && Retries(h) == n + if n + 1 <= maxRetries then 1 else 0
    ensures h[|h| - 1] == if n + 1 <= maxRetries then RetryPending else Simulating
  {
    if n + 1 <= maxRetries then Retrying(n) + [Simulating, RetryPending] else Retrying(n) + [Simulating]
  }

  lemma FailedIsPath(maxRetries: int, n: nat)
    requires RelayPath(maxRetries, Retrying(n))
    ensures RelayPath(maxRetries, FailedPath(maxRetries, n))
  {
    var h := Retrying(n);
    assert (h + [Simulating])[..|h|] == h;
    if n + 1 <= maxRetries {
      var h1 := h + [Simulating];
      SimulationsMove(h, Simulating);
      assert (h1 + [RetryPending])[..|h1|] == h1;
      assert h1 + [RetryPending] == FailedPath(maxRetries, n);
    }
  }

  /** A bundle may be rejected before any simulation. */
  lemma RejectedAtOnce(maxRetries: int, id: BundleId) returns (run: seq<System>)
    ensures Finishes(maxRetries, run, id, Rejected, 0, 0)
  {
    var h, more := [Received], [Validated];
    var h1 := h + more;
    var h2 := h1 + [Rejected];
    var h3 := h2 + [Persisted];
    assert Continues(maxRetries, h3, [Completed]);
    assert Continues(maxRetries, h2, [Persisted, Completed]);
    assert Continues(maxRetries, h1, [Rejected, Persisted, Completed]);
    assert more + [Rejected, Persisted, Completed] == [Validated, Rejected, Persisted, Completed];
    run := FinishFrom(maxRetries, id, h, more, Rejected);
    assert Simulations(h1) == 0 && Retries(h1) == 0;
  }

  // ----- eviction

  lemma Went(maxRetries: int, sh: Shared, actors: map<nat, Pc>, a: nat, sh': Shared, pc: Pc)
    requires Reached(maxRetries, System(sh, actors)) && a in actors
    requires Proceeds(maxRetries, sh, actors[a], sh', pc) || (sh' == sh && GivesUp(actors[a], pc))
    ensures Reached(maxRetries, System(sh', actors[a := pc]))
  {
    var s, s' := System(sh, actors), System(sh', actors[a := pc]);
    ReachedNext(maxRetries, s, s');
  }

  lemma WentOn(maxRetries: int, sh: Shared, actors: map<nat, Pc>, a: nat, id: BundleId, to: BundleState, pc: Pc)
    requires Reached(maxRetries, System(sh, actors)) && a in actors && id in sh.records && id in sh.history
    requires Takes(actors[a], id, sh.records[id], to, pc)
    ensures Reached(maxRetries, System(Moved(sh, id, to), actors[a := pc]))
  {
    TakesProceeds(maxRetries, sh, actors[a], id, to, pc);
    Went(maxRetries, sh, actors, a, Moved(sh, id, to), pc);
  }

  /** A submission up to its push. */
  lemma Submitted(maxRetries: int, sh: Shared, actors: map<nat, Pc>, a: nat, id: BundleId)
    requires Reached(maxRetries, System(sh, actors)) && a !in actors && id.hash !in sh.index
    ensures Reached(maxRetries, System(Moved(Created(sh, id, 0), id, Validated), actors[a := SubmitDecide(id)]))
  {
    var s, s' := System(sh, actors), System(sh, actors[a := SubmitCreate(id)]);
    assert Starts(s.shared, s'.shared, SubmitCreate(id));
    ReachedNext(maxRetries, s, s');
    var created := Created(sh, id, 0);
    assert CreateStep(sh, SubmitCreate(id), created, SubmitValidate(id));
    Went(maxRetries, sh, s'.actors, a, created, SubmitValidate(id));
    assert s'.actors[a := SubmitValidate(id)] == actors[a := SubmitValidate(id)];
    WentOn(maxRetries, created, actors[a := SubmitValidate(id)], a, id, Validated, SubmitDecide(id));
    assert actors[a := SubmitValidate(id)][a := SubmitDecide(id)] == actors[a := SubmitDecide(id)];
  }

  function Two(a: BundleId, ra: Record, ha: seq<BundleState>, b: BundleId, rb: Record, hb: seq<BundleState>,
               queue: multiset<BundleId>): Shared
  {
    Shared(map[a := ra, b := rb], map[a.hash := a, b.hash := b], {}, queue, map[a := ha, b := hb])
  }

  lemma PairUpdate<K, V>(a: K, x: V, b: K, y: V, z: V)
    requires a != b
    ensures map[a := x, b := y][a := z] == map[a := z, b := y]
    ensures map[a := x, b := y][b := z] == map[a := x, b := z]
  {
  }

  lemma MovedTwo(a: BundleId, ra: Record, ha: seq<BundleState>, b: BundleId, rb: Record, hb: seq<BundleState>,
                 queue: multiset<BundleId>, to: BundleState)
    requires a != b
    ensures var two := Two(a, ra, ha, b, rb, hb, queue);
            && Moved(two, a, to) == Two(a, Transitioned(ra, to), ha + [to], b, rb, hb, queue)
            && Moved(two, b, to) == Two(a, ra, ha, b, Transitioned(rb, to), hb + [to], queue)
  {
    PairUpdate(a, ra, b, rb, Transitioned(ra, to));
    PairUpdate(a, ra, b, rb, Transitioned(rb, to));
    PairUpdate(a, ha, b, hb, ha + [to]);
    PairUpdate(a, ha, b, hb, hb + [to]);
  }

  lemma CreatedShapes(a: BundleId, ra: Record, ha: seq<BundleState>, b: BundleId, queue: multiset<BundleId>)
    requires a.hash != b.hash
    ensures Created(EMPTY, a, 0) == One(a, NewRecord(a, 0), [Received], multiset{}, {})
    ensures Created(One(a, ra, ha, queue, {}), b, 0) == Two(a, ra, ha, b, NewRecord(b, 0), [Received], queue)
  {
  }

  const VALIDATED: seq<BundleState> := [Received] + [Validated]
  const QUEUED: seq<BundleState> := VALIDATED + [Queued]
  const REJECTED: seq<BundleState> := [Rejected, Persisted, Completed]

  /** The push that finds room. */
  lemma FirstPushed(maxRetries: int, a: BundleId, r: Record)
    requires Reached(maxRetries, System(One(a, r, VALIDATED, multiset{}, {}), map[0 := SubmitDecide(a)]))
    ensures Reached(maxRetries, System(One(a, r, VALIDATED, multiset{a}, {}), map[0 := SubmitQueue(a)]))
  {
    var sh, pushed := One(a, r, VALIDATED, multiset{}, {}), One(a, r, VALIDATED, multiset{a}, {});
    assert PushNext(sh, a, SubmitQueue(a), pushed, SubmitQueue(a));
    assert DecideStep(maxRetries, sh, SubmitDecide(a), pushed, SubmitQueue(a));
    var actors := map[0 := SubmitDecide(a)];
    Went(maxRetries, sh, actors, 0, pushed, SubmitQueue(a));
    assert actors[0 := SubmitQueue(a)] == map[0 := SubmitQueue(a)];
  }

  /** The first submission is done. */
  lemma FirstSubmitted(maxRetries: int, a: BundleId, b: BundleId) returns (ra: Record)
    requires a.hash != b.hash
    ensures ra.state == Queued
    ensures Reached(maxRetries, System(One(a, ra, QUEUED, multiset{a}, {}), map[0 := Done]))
  {
    var s := System(EMPTY, map[]);
    assert Ends(maxRetries, [s], s);
    Submitted(maxRetries, EMPTY, s.actors, 0, a);
    var r := Transitioned(NewRecord(a, 0), Validated);
    CreatedShapes(a, r, [], b, multiset{});
    MovedOne(a, NewRecord(a, 0), [Received], multiset{}, Validated);
    assert s.actors[0 := SubmitDecide(a)] == map[0 := SubmitDecide(a)];
    FirstPushed(maxRetries, a, r);
    ra := FirstQueued(maxRetries, a, r);
  }

  lemma FirstQueued(maxRetries: int, a: BundleId, r: Record) returns (ra: Record)
    requires r.state == Validated
    requires Reached(maxRetries, System(One(a, r, VALIDATED, multiset{a}, {}), map[0 := SubmitQueue(a)]))
    ensures ra.state == Queued
    ensures Reached(maxRetries, System(One(a, ra, QUEUED, multiset{a}, {}), map[0 := Done]))
  {
    var actors := map[0 := SubmitQueue(a)];
    WentOn(maxRetries, One(a, r, VALIDATED, multiset{a}, {}), actors, 0, a, Queued, Done);
    ra := Transitioned(r, Queued);
    MovedOne(a, r, VALIDATED, multiset{a}, Queued);
    assert actors[0 := Done] == map[0 := Done];
  }

  /** The second submission comes to its push. */
  lemma SecondSubmitted(maxRetries: int, a: BundleId, b: BundleId) returns (ra: Record, rb: Record)
    requires a.hash != b.hash
    ensures ra.state == Queued && rb.state == Validated
    ensures Reached(maxRetries, System(Two(a, ra, QUEUED, b, rb, VALIDATED, multiset{a}),
                                       map[0 := Done, 1 := SubmitDecide(b)]))
  {
    ra := FirstSubmitted(maxRetries, a, b);
    var actors := map[0 := Done];
    Submitted(maxRetries, One(a, ra, QUEUED, multiset{a}, {}), actors, 1, b);
    rb := Transitioned(NewRecord(b, 0), Validated);
    CreatedShapes(a, ra, QUEUED, b, multiset{a});
    MovedTwo(a, ra, QUEUED, b, NewRecord(b, 0), [Received], multiset{a}, Validated);
    assert actors[1 := SubmitDecide(b)] == map[0 := Done, 1 := SubmitDecide(b)];
  }

  /** The second submission's push evicts the first bundle. */
  lemma PushEvicts(maxRetries: int, a: BundleId, b: BundleId) returns (ra: Record, rb: Record)
    requires a.hash != b.hash
    ensures ra.state == Queued && rb.state == Validated
    ensures Reached(maxRetries, System(Two(a, ra, QUEUED, b, rb, VALIDATED, multiset{b}),
                                       map[0 := Done, 1 := Settle(a, Queued, Rejected, SubmitQueue(b))]))
  {
    ra, rb := SecondSubmitted(maxRetries, a, b);
    var two, evicted := Two(a, ra, QUEUED, b, rb, VALIDATED, multiset{a}),
        Two(a, ra, QUEUED, b, rb, VALIDATED, multiset{b});
    var actors := map[0 := Done, 1 := SubmitDecide(b)];
    var next := Settle(a, Queued, Rejected, SubmitQueue(b));
    assert multiset{a} - multiset{a} + multiset{b} == multiset{b};
    assert a in two.queue && evicted == two.(queue := two.queue - multiset{a} + multiset{b});
    assert PushNext(two, b, SubmitQueue(b), evicted, next);
    assert DecideStep(maxRetries, two, SubmitDecide(b), evicted, next);
    Went(maxRetries, two, actors, 1, evicted, next);
    assert actors[1 := next] == map[0 := Done, 1 := next];
  }

  /** Settling the evicted bundle, `n` steps far. */
  ghost function SettlePc(a: BundleId, b: BundleId, n: nat): Pc
  {
    if n == 0 then Settle(a, Queued, Rejected, SubmitQueue(b))
    else if n == 1 then Persist(a, Rejected, SubmitQueue(b))
    else if n == 2 then Complete(a, SubmitQueue(b))
    else SubmitQueue(b)
  }

  ghost predicate Evicted(maxRetries: int, a: BundleId, ra: Record, b: BundleId, rb: Record, n: nat, pc: Pc)
    requires n <= 3
  {
    && ra.state == (if n == 0 then Queued else REJECTED[n - 1]) && rb.state == Validated
    && Reached(maxRetries, System(Two(a, ra, QUEUED + REJECTED[..n], b, rb, VALIDATED, multiset{b}),
                                  map[0 := Done, 1 := pc]))
  }

  lemma SettleTakes(a: BundleId, b: BundleId, ra: Record, n: nat, to: BundleState)
    requires n < 3 && to == REJECTED[n] && ra.state == if n == 0 then Queued else REJECTED[n - 1]
    ensures Takes(SettlePc(a, b, n), a, ra, to, SettlePc(a, b, n + 1))
  {
  }

  lemma EvictedNext(maxRetries: int, a: BundleId, ra: Record, b: BundleId, rb: Record, n: nat, to: BundleState)
    requires a.hash != b.hash && n < 3 && to == REJECTED[n]
    requires Evicted(maxRetries, a, ra, b, rb, n, SettlePc(a, b, n))
    ensures Evicted(maxRetries, a, Transitioned(ra, to), b, rb, n + 1, SettlePc(a, b, n + 1))
  {
    var h := QUEUED + REJECTED[..n];
    var actors := map[0 := Done, 1 := SettlePc(a, b, n)];
    SettleTakes(a, b, ra, n, to);
    WentOn(maxRetries, Two(a, ra, h, b, rb, VALIDATED, multiset{b}), actors, 1, a, to, SettlePc(a, b, n + 1));
    MovedTwo(a, ra, h, b, rb, VALIDATED, multiset{b}, to);
    assert h + [to] == QUEUED + REJECTED[..n + 1];
    assert actors[1 := SettlePc(a, b, n + 1)] == map[0 := Done, 1 := SettlePc(a, b, n + 1)];
  }

  lemma {:induction false} EvictedSettles(maxRetries: int, a: BundleId, b: BundleId, n: nat)
    returns (ra: Record, rb: Record)
    requires a.hash != b.hash && n <= 3
    ensures Evicted(maxRetries, a, ra, b, rb, n, SettlePc(a, b, n))
  {
    if n == 0 {
      ra, rb := PushEvicts(maxRetries, a, b);
      assert QUEUED + REJECTED[..0] == QUEUED;
    } else {
      ra, rb := EvictedSettles(maxRetries, a, b, n - 1);
      EvictedNext(maxRetries, a, ra, b, rb, n - 1, REJECTED[n - 1]);
      ra := Transitioned(ra, REJECTED[n - 1]);
    }
  }

  lemma EvictedLeft(maxRetries: int, a: BundleId, ra: Record, b: BundleId, rb: Record, n: nat)
    requires n < 3 && Evicted(maxRetries, a, ra, b, rb, n, SettlePc(a, b, n))
    ensures Evicted(maxRetries, a, ra, b, rb, n, SubmitQueue(b))
  {
    var sh := Two(a, ra, QUEUED + REJECTED[..n], b, rb, VALIDATED, multiset{b});
    var actors := map[0 := Done, 1 := SettlePc(a, b, n)];
    Went(maxRetries, sh, actors, 1, sh, SubmitQueue(b));
    assert actors[1 := SubmitQueue(b)] == map[0 := Done, 1 := SubmitQueue(b)];
  }

  lemma EvictedEnd(maxRetries: int, a: BundleId, ra: Record, b: BundleId, rb: Record, n: nat)
    requires a.hash != b.hash && n <= 3 && Evicted(maxRetries, a, ra, b, rb, n, SubmitQueue(b))
    ensures var moved := Transitioned(rb, Queued);
            Reached(maxRetries, System(Two(a, ra, QUEUED + REJECTED[..n], b, moved, QUEUED, multiset{b}),
                                       map[0 := Done, 1 := Done]))
  {
    var h := QUEUED + REJECTED[..n];
    var actors := map[0 := Done, 1 := SubmitQueue(b)];
    WentOn(maxRetries, Two(a, ra, h, b, rb, VALIDATED, multiset{b}), actors, 1, b, Queued, Done);
    MovedTwo(a, ra, h, b, rb, VALIDATED, multiset{b}, Queued);
    assert actors[1 := Done] == map[0 := Done, 1 := Done];
  }

  /**
   * Two submissions alone, with no worker: the second pushes the first out of the queue. However many of the steps that
   * settle the evicted bundle succeed, the second one is queued.
   */
  lemma EvictionRun(maxRetries: int, a: BundleId, b: BundleId, n: nat) returns (run: seq<System>)
    requires a.hash != b.hash && n <= 3
    ensures Run(maxRetries, run)
    ensures var s := run[|run| - 1];
            && s.actors == map[0 := Done, 1 := Done] && s.shared.queue == multiset{b}
            && s.shared.history == map[a := [Received, Validated, Queued] + [Rejected, Persisted, Completed][..n],
                                       b := [Received, Validated, Queued]]
  {
    var ra, rb := EvictedSettles(maxRetries, a, b, n);
    if n < 3 {
      EvictedLeft(maxRetries, a, ra, b, rb, n);
    }
    EvictedEnd(maxRetries, a, ra, b, rb, n);
    assert QUEUED == [Received, Validated, Queued];
    run :| Ends(maxRetries, run, System(Two(a, ra, QUEUED + REJECTED[..n], b, Transitioned(rb, Queued), QUEUED,
                                            multiset{b}), map[0 := Done, 1 := Done]));
  }
}

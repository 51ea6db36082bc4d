/**
 * The relay runtime as interleaved activities over the bundle store. Every store or queue call is one step, any
 * activity may stop at any point, and the order of steps is arbitrary.
 */
module RelayProtocol {
  import opened Options
  import opened Lifecycle
  import opened RelayStore

  /** What the activities share; `history` records the states each bundle has been in. */
  datatype Shared = Shared(
    records: map<BundleId, Record>, index: map<string, BundleId>, retries: set<BundleId>, queue: multiset<BundleId>,
    history: map<BundleId, seq<BundleState>>)

  /** Where an activity is. `next` is what follows an attempt to settle a bundle, successful or not. */
  datatype Pc =
    | SubmitCreate(id: BundleId)
    | SubmitValidate(id: BundleId)
    | SubmitDecide(id: BundleId)
    | SubmitQueue(id: BundleId)
    | ProcessStart(id: BundleId)
    | ProcessPick(id: BundleId)
    | Simulate(id: BundleId, count: int)
    | ToRetry(id: BundleId, count: int)
    | CountRetry(id: BundleId, count: int)
    | ScheduleRetry(id: BundleId)
    | ToSimulated(id: BundleId)
    | ToScored(id: BundleId)
    | ToVerdict(id: BundleId)
    | RecordResult(id: BundleId, verdict: BundleState)
    | RetryStart(id: BundleId)
    | RetryQueue(id: BundleId)
    | RetryPush(id: BundleId)
    | Settle(id: BundleId, from: BundleState, terminal: BundleState, next: Pc)
    | Persist(id: BundleId, terminal: BundleState, next: Pc)
    | Complete(id: BundleId, next: Pc)
    | Done

  datatype System = System(shared: Shared, actors: map<nat, Pc>)

  // ----- steps

  function Moved(sh: Shared, id: BundleId, to: BundleState): Shared
    requires id in sh.records && id in sh.history
  {
    sh.(records := sh.records[id := Transitioned(sh.records[id], to)],
        history := sh.history[id := sh.history[id] + [to]])
  }

  /** The compare-and-set of the store succeeds. */
  predicate CanMove(sh: Shared, id: BundleId, from: BundleState, to: BundleState)
  {
    id in sh.records && id in sh.history && sh.records[id].state == from && CanTransition(from, to)
  }

  function Created(sh: Shared, id: BundleId, createdAt: int): Shared
  {
    sh.(records := sh.records[id := NewRecord(id, createdAt)],
        index := sh.index[id.hash := id],
        history := sh.history[id := [Received]])
  }

  /** A push that is accepted, and then the reject of the item it evicted, if any. */
  ghost predicate PushNext(sh: Shared, id: BundleId, next: Pc, sh': Shared, pc': Pc)
  {
    || (sh' == sh.(queue := sh.queue + multiset{id}) && pc' == next)
    || (exists e :: e in sh.queue && sh' == sh.(queue := sh.queue - multiset{e} + multiset{id})
          && pc' == Settle(e, Queued, Rejected, next))
  }

  /** An activity stops, or gives up on a settlement and goes on. */
  predicate GivesUp(pc: Pc, pc': Pc)
  {
    pc' == Done || (pc.Settle? && pc' == pc.next) || (pc.Persist? && pc' == pc.next) || (pc.Complete? && pc' == pc.next)
  }

  /** The transition `from -> to` of the activity's bundle, when the store grants it. */
  predicate Moves(sh: Shared, id: BundleId, from: BundleState, to: BundleState, sh': Shared)
  {
    CanMove(sh, id, from, to) && sh' == Moved(sh, id, to)
  }

  /** A submission creates its record. */
  ghost predicate CreateStep(sh: Shared, pc: Pc, sh': Shared, pc': Pc)
  {
    && pc.SubmitCreate? && pc.id.hash !in sh.index && pc' == SubmitValidate(pc.id)
    && exists at :: sh' == Created(sh, pc.id, at)
  }

  /** Transitions up to the start of a simulation. */
  ghost predicate EarlyStep(sh: Shared, pc: Pc, sh': Shared, pc': Pc)
  {
    match pc
    case SubmitValidate(id) => Moves(sh, id, Received, Validated, sh') && pc' == SubmitDecide(id)
    case SubmitQueue(id) => Moves(sh, id, Validated, Queued, sh') && pc' == Done
    case ProcessPick(id) => Moves(sh, id, Queued, Simulating, sh') && pc' == Simulate(id, sh.records[id].retryCount)
    case _ => false
  }

  /** Transitions of an activity that has a simulation or a retry in hand. */
  ghost predicate HeldStep(sh: Shared, pc: Pc, sh': Shared, pc': Pc)
  {
    match pc
    case ToRetry(id, _) =>
      Moves(sh, id, Simulating, RetryPending, sh') && pc' == CountRetry(id, sh.records[id].retryCount)
    case ToSimulated(id) => Moves(sh, id, Simulating, Simulated, sh') && pc' == ToScored(id)
    case RetryQueue(id) => Moves(sh, id, RetryPending, Queued, sh') && pc' == RetryPush(id)
    case _ => false
  }

  /** Transitions after a simulation: score, verdict, persisted, completed. */
  ghost predicate LateStep(sh: Shared, pc: Pc, sh': Shared, pc': Pc)
  {
    match pc
    case ToScored(id) => Moves(sh, id, Simulated, Scored, sh') && pc' == ToVerdict(id)
    case ToVerdict(id) =>
      && pc'.RecordResult? && pc'.id == id && (pc'.verdict == Forwarded || pc'.verdict == Rejected)
      && Moves(sh, id, Scored, pc'.verdict, sh')
    case Persist(id, terminal, next) => Moves(sh, id, terminal, Persisted, sh') && pc' == Complete(id, next)
    case Complete(id, next) => Moves(sh, id, Persisted, Completed, sh') && pc' == next
    case _ => false
  }

  ghost predicate SettleStep(sh: Shared, pc: Pc, sh': Shared, pc': Pc)
  {
    pc.Settle? && Moves(sh, pc.id, pc.from, pc.terminal, sh') && pc' == Persist(pc.id, pc.terminal, pc.next)
  }

  /** Writes that do not move the bundle: the retry count, the result of a verdict. */
  ghost predicate WriteStep(sh: Shared, pc: Pc, sh': Shared, pc': Pc)
  {
    match pc
    case CountRetry(id, count) =>
      && id in sh.records && pc' == ScheduleRetry(id)
      && sh' == sh.(records := sh.records[id := Recounted(sh.records[id], count + 1)])
    case RecordResult(id, verdict) =>
      && id in sh.records && pc' == Persist(id, verdict, Done)
      && sh' == sh.(records := sh.records[id := sh.records[id].(version := sh.records[id].version + 1)])
    case _ => false
  }

  ghost predicate ScheduleStep(sh: Shared, pc: Pc, sh': Shared, pc': Pc)
  {
    pc.ScheduleRetry? && sh' == sh.(retries := sh.retries + {pc.id}) && pc' == Done
  }

  /** Decisions, which change at most the queue; `maxRetries` is the configured limit. */
  ghost predicate DecideStep(maxRetries: int, sh: Shared, pc: Pc, sh': Shared, pc': Pc)
  {
    match pc
    case SubmitDecide(id) =>
      (sh' == sh && pc' == Settle(id, Validated, Rejected, Done)) || PushNext(sh, id, SubmitQueue(id), sh', pc')
    case ProcessStart(id) =>
      sh' == sh && (pc' == Settle(id, Queued, Rejected, Done) || pc' == ProcessPick(id))
    case Simulate(id, count) =>
      sh' == sh && (pc' == ToSimulated(id) || pc' == Settle(id, Simulating, DeadLetter, Done)
                    || (count + 1 <= maxRetries && pc' == ToRetry(id, count)))
    case ScheduleRetry(id) =>
      sh' == sh && pc' == Settle(id, RetryPending, DeadLetter, Done)
    case RetryStart(id) =>
      sh' == sh && id in sh.records && sh.records[id].state == RetryPending
      && pc' == if sh.records[id].retryCount >= maxRetries then Settle(id, RetryPending, DeadLetter, Done)
                else RetryQueue(id)
    case RetryPush(id) =>
      (sh' == sh && pc' == Settle(id, Queued, DeadLetter, Done)) || PushNext(sh, id, Done, sh', pc')
    case _ => false
  }

  /** One effective step of an activity. */
  ghost predicate Proceeds(maxRetries: int, sh: Shared, pc: Pc, sh': Shared, pc': Pc)
  {
    || CreateStep(sh, pc, sh', pc') || EarlyStep(sh, pc, sh', pc') || HeldStep(sh, pc, sh', pc')
    || LateStep(sh, pc, sh', pc') || SettleStep(sh, pc, sh', pc') || WriteStep(sh, pc, sh', pc')
    || ScheduleStep(sh, pc, sh', pc') || DecideStep(maxRetries, sh, pc, sh', pc')
  }

  /** A new activity: a submission, a worker that popped an item, or the handling of a claimed retry. */
  ghost predicate Starts(sh: Shared, sh': Shared, pc: Pc)
  {
    || (sh' == sh && pc.SubmitCreate?)
    || (pc.ProcessStart? && pc.id in sh.queue && sh' == sh.(queue := sh.queue - multiset{pc.id}))
    || (pc.RetryStart? && pc.id in sh.retries && sh' == sh.(retries := sh.retries - {pc.id}))
  }

  ghost predicate Step(maxRetries: int, s: System, s': System)
  {
    || (exists a: nat, pc :: a !in s.actors && Starts(s.shared, s'.shared, pc) && s'.actors == s.actors[a := pc])
    || (exists a: nat, pc :: a in s.actors && GivesUp(s.actors[a], pc) && s' == s.(actors := s.actors[a := pc]))
    || (exists a: nat, pc :: a in s.actors && Proceeds(maxRetries, s.shared, s.actors[a], s'.shared, pc)
          && s'.actors == s.actors[a := pc])
  }

  ghost predicate Initial(s: System)
  {
    s == System(Shared(map[], map[], {}, multiset{}, map[]), map[])
  }

  ghost predicate StepAt(maxRetries: int, run: seq<System>, i: nat)
    requires i + 1 < |run|
  {
    Step(maxRetries, run[i], run[i + 1])
  }

  ghost predicate Run(maxRetries: int, run: seq<System>)
  {
    && |run| > 0 && Initial(run[0])
    && forall i {:trigger StepAt(maxRetries, run, i)} :: 0 <= i < |run| - 1 ==> StepAt(maxRetries, run, i)
  }

  // ----- what every step keeps

  /** The record agrees with the path the bundle has taken. */
  ghost predicate Kept(rec: Record, h: seq<BundleState>)
  {
    && LegalPath(h) && h[|h| - 1] == rec.state && rec.sequence == |h|
    && (forall i :: 0 <= i < |h| && IsOutcome(h[i]) ==> rec.terminal == Some(h[i]))
    && (rec.terminal.Some? ==> rec.terminal.value in h && IsOutcome(rec.terminal.value))
  }

  /** How many simulations are allowed. */
  function Allowed(maxRetries: int): int
  {
    if maxRetries > 1 then maxRetries else 1
  }

  /** The retry count accounts for the simulations, one behind while one is in progress or not yet counted. */
  ghost predicate Counted(maxRetries: int, rec: Record, h: seq<BundleState>)
  {
    && Simulations(h) <= Allowed(maxRetries)
    && match rec.state
       case Received => Simulations(h) == rec.retryCount == 0
       case Validated => Simulations(h) == rec.retryCount == 0
       case Queued => Simulations(h) == rec.retryCount < Allowed(maxRetries)
       case RetryPending => Simulations(h) == rec.retryCount || Simulations(h) == rec.retryCount + 1
       case _ => Dead(rec.state) || Simulations(h) == rec.retryCount + 1
  }

  /** The activity has the simulation of `id` in hand. */
  predicate InSimulation(pc: Pc, id: BundleId)
  {
    (pc.Simulate? || pc.ToRetry? || pc.ToSimulated? || (pc.Settle? && pc.from == Simulating)) && pc.id == id
  }

  /** The activity has the one outstanding retry of `id` in hand. */
  predicate InRetry(pc: Pc, id: BundleId)
  {
    (pc.CountRetry? || pc.ScheduleRetry? || pc.RetryStart? || pc.RetryQueue?) && pc.id == id
  }

  predicate Holds(pc: Pc, id: BundleId)
  {
    InSimulation(pc, id) || InRetry(pc, id)
  }

  /** A retry of `id` is outstanding and counted. */
  ghost predicate RetryCounted(sh: Shared, id: BundleId)
  {
    id in sh.records && id in sh.history && RetryDue(sh.records[id], sh.history[id])
  }

  ghost predicate RetryDue(rec: Record, h: seq<BundleState>)
  {
    Dead(rec.state) || (rec.state == RetryPending && Simulations(h) == rec.retryCount)
  }

  /** What an activity may rely on about the bundle it has in hand. */
  ghost predicate HolderOk(maxRetries: int, sh: Shared, pc: Pc)
  {
    match pc
    case Simulate(id, count) =>
      id in sh.records && sh.records[id].state == Simulating && sh.records[id].retryCount == count
    case ToRetry(id, count) =>
      id in sh.records && sh.records[id].state == Simulating && sh.records[id].retryCount == count
        && count + 1 <= maxRetries
    case ToSimulated(id) => id in sh.records && sh.records[id].state == Simulating
    case Settle(id, from, terminal, next) =>
      && IsOutcome(terminal) && (next.SubmitQueue? || next.Done?)
      && (from == Simulating ==> id in sh.records && sh.records[id].state == Simulating)
    case RecordResult(id, verdict) => IsOutcome(verdict)
    case Persist(id, terminal, next) => IsOutcome(terminal) && (next.SubmitQueue? || next.Done?)
    case Complete(id, next) => next.SubmitQueue? || next.Done?
    case CountRetry(id, count) =>
      && id in sh.records && id in sh.history
      && (Dead(sh.records[id].state)
          || (sh.records[id].state == RetryPending && sh.records[id].retryCount == count
              && Simulations(sh.history[id]) == count + 1 <= maxRetries))
    case ScheduleRetry(id) => RetryCounted(sh, id)
    case RetryStart(id) => RetryCounted(sh, id)
    case RetryQueue(id) =>
      RetryCounted(sh, id) && (Dead(sh.records[id].state) || sh.records[id].retryCount < maxRetries)
    case _ => true
  }

  ghost predicate BundleOk(maxRetries: int, rec: Record, h: seq<BundleState>)
  {
    Kept(rec, h) && Counted(maxRetries, rec, h)
  }

  ghost predicate AllOk(maxRetries: int, records: map<BundleId, Record>, history: map<BundleId, seq<BundleState>>)
  {
    forall id :: id in records ==> id in history && BundleOk(maxRetries, records[id], history[id])
  }

  ghost predicate AllDue(retries: set<BundleId>, records: map<BundleId, Record>,
                         history: map<BundleId, seq<BundleState>>)
  {
    forall id :: id in retries ==> id in records && id in history && RetryDue(records[id], history[id])
  }

  ghost predicate StoreOk(maxRetries: int, sh: Shared)
  {
    && Indexed(sh.records, sh.index) && sh.history.Keys == sh.records.Keys
    && AllOk(maxRetries, sh.records, sh.history)
    && AllDue(sh.retries, sh.records, sh.history)
  }

  /** No two activities, and no activity and the schedule, have the same bundle in hand. */
  ghost predicate Exclusive(s: System)
  {
    && (forall a, b, id ::
          a in s.actors && b in s.actors && Holds(s.actors[a], id) && Holds(s.actors[b], id) ==> a == b)
    && (forall a, id :: a in s.actors && Holds(s.actors[a], id) ==> id !in s.shared.retries)
  }

  ghost predicate Inv(maxRetries: int, s: System)
  {
    StoreOk(maxRetries, s.shared) && Exclusive(s) && HoldersOk(maxRetries, s)
  }

  ghost predicate HoldersOk(maxRetries: int, s: System)
  {
    forall a {:trigger HolderOk(maxRetries, s.shared, s.actors[a])} ::
      a in s.actors ==> HolderOk(maxRetries, s.shared, s.actors[a])
  }

  /** Nobody but `a` has `id` in hand. */
  ghost predicate Alone(s: System, a: nat, id: BundleId)
  {
    id !in s.shared.retries && forall b :: b in s.actors && b != a ==> !Holds(s.actors[b], id)
  }

  /** While a bundle is elsewhere in its life, nobody has it in hand. */
  lemma FreeState(maxRetries: int, s: System, a: nat, id: BundleId)
    requires Inv(maxRetries, s) && id in s.shared.records
    requires var st := s.shared.records[id].state; st != Simulating && st != RetryPending && !Dead(st)
    ensures Alone(s, a, id)
  {
    forall b | b in s.actors
      ensures !Holds(s.actors[b], id)
    {
      assert HolderOk(maxRetries, s.shared, s.actors[b]);
    }
  }

  lemma HolderIsAlone(maxRetries: int, s: System, a: nat, id: BundleId)
    requires Inv(maxRetries, s) && a in s.actors && Holds(s.actors[a], id)
    ensures Alone(s, a, id)
  {
  }

  lemma KeptMove(rec: Record, h: seq<BundleState>, to: BundleState)
    requires Kept(rec, h) && CanTransition(rec.state, to)
    ensures Kept(Transitioned(rec, to), h + [to])
  {
    LegalPathExtends(h, to);
    var g := h + [to];
    if IsOutcome(to) {
      forall i | 0 <= i < |g| && IsOutcome(g[i])
        ensures Some(to) == Some(g[i])
      {
        OutcomeOnce(g, i, |h|);
      }
    }
  }

  lemma SimulationsMove(h: seq<BundleState>, to: BundleState)
    ensures Simulations(h + [to]) == Simulations(h) + if to == Simulating then 1 else 0
  {
  }

  lemma IndexedRewrite(records: map<BundleId, Record>, index: map<string, BundleId>, id: BundleId, rec: Record)
    requires Indexed(records, index) && id in records && rec.id == id
    ensures Indexed(records[id := rec], index)
  {
  }

  lemma IndexedCreate(records: map<BundleId, Record>, index: map<string, BundleId>, id: BundleId, at: int)
    requires Indexed(records, index) && id.hash !in index
    ensures id !in records && Indexed(records[id := NewRecord(id, at)], index[id.hash := id])
  {
  }

  /** One bundle changes for the good, the others not at all. */
  lemma WriteKeeps(maxRetries: int, sh: Shared, id: BundleId, rec: Record, h: seq<BundleState>)
    requires AllOk(maxRetries, sh.records, sh.history) && AllDue(sh.retries, sh.records, sh.history)
    requires BundleOk(maxRetries, rec, h) && (id in sh.retries ==> RetryDue(rec, h))
    ensures AllOk(maxRetries, sh.records[id := rec], sh.history[id := h])
    ensures AllDue(sh.retries, sh.records[id := rec], sh.history[id := h])
  {
  }

  /** The store after a transition, given that the new count is right. */
  lemma MoveStore(maxRetries: int, sh: Shared, id: BundleId, from: BundleState, to: BundleState)
    requires StoreOk(maxRetries, sh) && CanMove(sh, id, from, to)
    requires Counted(maxRetries, Transitioned(sh.records[id], to), sh.history[id] + [to])
    requires id in sh.retries ==> Dead(to)
    ensures StoreOk(maxRetries, Moved(sh, id, to))
  {
    IndexedRewrite(sh.records, sh.index, id, Transitioned(sh.records[id], to));
    KeptMove(sh.records[id], sh.history[id], to);
    WriteKeeps(maxRetries, sh, id, Transitioned(sh.records[id], to), sh.history[id] + [to]);
  }

  /** What others rely on survives a transition of `id` if they do not have it in hand, or if it is dead now. */
  lemma MoveOther(maxRetries: int, sh: Shared, id: BundleId, from: BundleState, to: BundleState, pc: Pc)
    requires HolderOk(maxRetries, sh, pc) && CanMove(sh, id, from, to)
    requires !Holds(pc, id) || (Dead(to) && from != Simulating)
    ensures HolderOk(maxRetries, Moved(sh, id, to), pc)
  {
  }

  /** `a` may take `id`, and nothing else, in hand when nobody else has it. */
  lemma ExclusiveStep(s: System, a: nat, sh': Shared, pc: Pc)
    requires Exclusive(s) && sh'.retries <= s.shared.retries
    requires forall x :: Holds(pc, x) ==> Alone(s, a, x)
    ensures Exclusive(System(sh', s.actors[a := pc]))
  {
  }

  lemma HoldersAfter(maxRetries: int, sh: Shared, actors: map<nat, Pc>, a: nat, pc: Pc)
    requires forall b {:trigger HolderOk(maxRetries, sh, actors[b])} ::
               b in actors && b != a ==> HolderOk(maxRetries, sh, actors[b])
    requires HolderOk(maxRetries, sh, pc)
    ensures HoldersOk(maxRetries, System(sh, actors[a := pc]))
  {
    var s := System(sh, actors[a := pc]);
    forall b | b in s.actors
      ensures HolderOk(maxRetries, sh, s.actors[b])
    {
      assert b != a ==> s.actors[b] == actors[b];
    }
  }

  /** A transition by activity `a`, which goes on at `pc`. */
  lemma MoveKeeps(maxRetries: int, s: System, a: nat, id: BundleId, from: BundleState, to: BundleState, pc: Pc)
    requires Inv(maxRetries, s) && a in s.actors && CanMove(s.shared, id, from, to)
    requires Counted(maxRetries, Transitioned(s.shared.records[id], to), s.shared.history[id] + [to])
    requires Alone(s, a, id) || (Dead(to) && from != Simulating)
    requires HolderOk(maxRetries, Moved(s.shared, id, to), pc)
    requires forall x :: Holds(pc, x) ==> x == id && Alone(s, a, id)
    ensures Inv(maxRetries, System(Moved(s.shared, id, to), s.actors[a := pc]))
  {
    var sh' := Moved(s.shared, id, to);
    MoveStore(maxRetries, s.shared, id, from, to);
    ExclusiveStep(s, a, sh', pc);
    forall b | b in s.actors && b != a
      ensures HolderOk(maxRetries, sh', s.actors[b])
    {
      MoveOther(maxRetries, s.shared, id, from, to, s.actors[b]);
    }
    HoldersAfter(maxRetries, sh', s.actors, a, pc);
  }

  lemma QueueIrrelevant(maxRetries: int, sh: Shared, queue: multiset<BundleId>)
    requires StoreOk(maxRetries, sh)
    ensures StoreOk(maxRetries, sh.(queue := queue))
    ensures forall p: Pc :: HolderOk(maxRetries, sh, p) ==> HolderOk(maxRetries, sh.(queue := queue), p)
  {
    forall p: Pc | HolderOk(maxRetries, sh, p)
      ensures HolderOk(maxRetries, sh.(queue := queue), p)
    {
    }
  }

  /** A change of activity `a` and the queue alone: it takes nothing new in hand. */
  lemma PcKeeps(maxRetries: int, s: System, a: nat, queue: multiset<BundleId>, pc: Pc)
    requires Inv(maxRetries, s) && HolderOk(maxRetries, s.shared, pc)
    requires forall x :: Holds(pc, x) ==> Alone(s, a, x)
    ensures Inv(maxRetries, System(s.shared.(queue := queue), s.actors[a := pc]))
  {
    QueueIrrelevant(maxRetries, s.shared, queue);
    ExclusiveStep(s, a, s.shared.(queue := queue), pc);
  }

  // ----- each kind of step

  lemma CreateKeeps(maxRetries: int, s: System, a: nat, sh': Shared, pc: Pc)
    requires Inv(maxRetries, s) && a in s.actors && CreateStep(s.shared, s.actors[a], sh', pc)
    ensures Inv(maxRetries, System(sh', s.actors[a := pc]))
  {
    var id := s.actors[a].id;
    var at :| sh' == Created(s.shared, id, at);
    CreateStore(maxRetries, s.shared, id, at);
    forall b | b in s.actors
      ensures HolderOk(maxRetries, sh', s.actors[b])
    {
      CreateOther(maxRetries, s.shared, id, at, s.actors[b]);
    }
    ExclusiveStep(s, a, sh', pc);
  }

  lemma CreateStore(maxRetries: int, sh: Shared, id: BundleId, at: int)
    requires StoreOk(maxRetries, sh) && id.hash !in sh.index
    ensures id !in sh.records && StoreOk(maxRetries, Created(sh, id, at))
  {
    IndexedCreate(sh.records, sh.index, id, at);
    assert Simulations([Received]) == 0;
    assert BundleOk(maxRetries, NewRecord(id, at), [Received]);
    WriteKeeps(maxRetries, sh, id, NewRecord(id, at), [Received]);
  }

  lemma CreateOther(maxRetries: int, sh: Shared, id: BundleId, at: int, pc: Pc)
    requires id !in sh.records && HolderOk(maxRetries, sh, pc)
    ensures HolderOk(maxRetries, Created(sh, id, at), pc)
  {
  }

  /** Before a simulation nobody has the bundle in hand. */
  lemma EarlyMoveKeeps(maxRetries: int, s: System, a: nat, id: BundleId, from: BundleState, to: BundleState, pc: Pc)
    requires Inv(maxRetries, s) && a in s.actors && CanMove(s.shared, id, from, to)
    requires (from == Received && to == Validated) || (from == Validated && to == Queued)
             || (from == Queued && to == Simulating)
    requires pc == if to == Simulating then Simulate(id, s.shared.records[id].retryCount)
                   else if to == Queued then Done else SubmitDecide(id)
    ensures Inv(maxRetries, System(Moved(s.shared, id, to), s.actors[a := pc]))
  {
    assert BundleOk(maxRetries, s.shared.records[id], s.shared.history[id]);
    FreeState(maxRetries, s, a, id);
    SimulationsMove(s.shared.history[id], to);
    MoveKeeps(maxRetries, s, a, id, from, to, pc);
  }

  lemma EarlyKeeps(maxRetries: int, s: System, a: nat, sh': Shared, pc: Pc)
    requires Inv(maxRetries, s) && a in s.actors && EarlyStep(s.shared, s.actors[a], sh', pc)
    ensures Inv(maxRetries, System(sh', s.actors[a := pc]))
  {
    match s.actors[a]
    case SubmitValidate(id) => EarlyMoveKeeps(maxRetries, s, a, id, Received, Validated, pc);
    case SubmitQueue(id) => EarlyMoveKeeps(maxRetries, s, a, id, Validated, Queued, pc);
    case ProcessPick(id) => EarlyMoveKeeps(maxRetries, s, a, id, Queued, Simulating, pc);
  }

  /** An activity moves the bundle it has in hand. */
  lemma HeldMoveKeeps(maxRetries: int, s: System, a: nat, id: BundleId, from: BundleState, to: BundleState, pc: Pc)
    requires Inv(maxRetries, s) && a in s.actors && CanMove(s.shared, id, from, to)
    requires match s.actors[a]
             case ToRetry(x, _) =>
               x == id && from == Simulating && to == RetryPending
               && pc == CountRetry(id, s.shared.records[id].retryCount)
             case ToSimulated(x) => x == id && from == Simulating && to == Simulated && pc == ToScored(id)
             case RetryQueue(x) => x == id && from == RetryPending && to == Queued && pc == RetryPush(id)
             case _ => false
    ensures Inv(maxRetries, System(Moved(s.shared, id, to), s.actors[a := pc]))
  {
    HolderIsAlone(maxRetries, s, a, id);
    assert BundleOk(maxRetries, s.shared.records[id], s.shared.history[id]);
    assert HolderOk(maxRetries, s.shared, s.actors[a]);
    SimulationsMove(s.shared.history[id], to);
    MoveKeeps(maxRetries, s, a, id, from, to, pc);
  }

  lemma HeldKeeps(maxRetries: int, s: System, a: nat, sh': Shared, pc: Pc)
    requires Inv(maxRetries, s) && a in s.actors && HeldStep(s.shared, s.actors[a], sh', pc)
    ensures Inv(maxRetries, System(sh', s.actors[a := pc]))
  {
    match s.actors[a]
    case ToRetry(id, _) => HeldMoveKeeps(maxRetries, s, a, id, Simulating, RetryPending, pc);
    case ToSimulated(id) => HeldMoveKeeps(maxRetries, s, a, id, Simulating, Simulated, pc);
    case RetryQueue(id) => HeldMoveKeeps(maxRetries, s, a, id, RetryPending, Queued, pc);
  }

  /** A place where nothing is in hand and nothing is relied on. */
  predicate Harmless(pc: Pc)
  {
    || pc.SubmitQueue? || pc.Done? || pc.ToVerdict? || (pc.RecordResult? && IsOutcome(pc.verdict))
    || (pc.Complete? && (pc.next.SubmitQueue? || pc.next.Done?))
    || (pc.Persist? && IsOutcome(pc.terminal) && (pc.next.SubmitQueue? || pc.next.Done?))
  }

  lemma HarmlessIsOk(maxRetries: int, sh: Shared, pc: Pc)
    requires Harmless(pc)
    ensures HolderOk(maxRetries, sh, pc) && forall x :: !Holds(pc, x)
  {
  }

  /** After a simulation nobody has the bundle in hand, or what they have in hand is dead. */
  lemma LateMoveKeeps(maxRetries: int, s: System, a: nat, id: BundleId, from: BundleState, to: BundleState, pc: Pc)
    requires Inv(maxRetries, s) && a in s.actors && CanMove(s.shared, id, from, to)
    requires (from == Simulated && to == Scored) || from == Scored || Dead(from)
    requires Harmless(pc)
    ensures Inv(maxRetries, System(Moved(s.shared, id, to), s.actors[a := pc]))
  {
    assert BundleOk(maxRetries, s.shared.records[id], s.shared.history[id]);
    if !Dead(from) {
      FreeState(maxRetries, s, a, id);
    }
    SimulationsMove(s.shared.history[id], to);
    HarmlessIsOk(maxRetries, Moved(s.shared, id, to), pc);
    MoveKeeps(maxRetries, s, a, id, from, to, pc);
  }

  lemma LateKeeps(maxRetries: int, s: System, a: nat, sh': Shared, pc: Pc)
    requires Inv(maxRetries, s) && a in s.actors && LateStep(s.shared, s.actors[a], sh', pc)
    ensures Inv(maxRetries, System(sh', s.actors[a := pc]))
  {
    assert Harmless(pc) && (s.actors[a].Persist? ==> IsOutcome(s.actors[a].terminal)) by {
      assert HolderOk(maxRetries, s.shared, s.actors[a]);
    }
    match s.actors[a]
    case ToScored(id) => LateMoveKeeps(maxRetries, s, a, id, Simulated, Scored, pc);
    case ToVerdict(id) => LateMoveKeeps(maxRetries, s, a, id, Scored, pc.verdict, pc);
    case Persist(id, terminal, next) => LateMoveKeeps(maxRetries, s, a, id, terminal, Persisted, pc);
    case Complete(id, next) => LateMoveKeeps(maxRetries, s, a, id, Persisted, Completed, pc);
  }

  /** A bundle is settled by the holder of its simulation, or while it is not being simulated. */
  lemma SettleMoveKeeps(maxRetries: int, s: System, a: nat, id: BundleId, from: BundleState, to: BundleState, pc: Pc)
    requires Inv(maxRetries, s) && a in s.actors && CanMove(s.shared, id, from, to)
    requires IsOutcome(to) && (from == Simulating ==> Alone(s, a, id))
    requires Harmless(pc)
    ensures Inv(maxRetries, System(Moved(s.shared, id, to), s.actors[a := pc]))
  {
    assert BundleOk(maxRetries, s.shared.records[id], s.shared.history[id]);
    SimulationsMove(s.shared.history[id], to);
    HarmlessIsOk(maxRetries, Moved(s.shared, id, to), pc);
    MoveKeeps(maxRetries, s, a, id, from, to, pc);
  }

  lemma SettleKeeps(maxRetries: int, s: System, a: nat, sh': Shared, pc: Pc)
    requires Inv(maxRetries, s) && a in s.actors && SettleStep(s.shared, s.actors[a], sh', pc)
    ensures Inv(maxRetries, System(sh', s.actors[a := pc]))
  {
    var p := s.actors[a];
    assert HolderOk(maxRetries, s.shared, p);
    if p.from == Simulating {
      HolderIsAlone(maxRetries, s, a, p.id);
    }
    SettleMoveKeeps(maxRetries, s, a, p.id, p.from, p.terminal, pc);
  }

  lemma WriteStepKeeps(maxRetries: int, s: System, a: nat, sh': Shared, pc: Pc)
    requires Inv(maxRetries, s) && a in s.actors && WriteStep(s.shared, s.actors[a], sh', pc)
    ensures Inv(maxRetries, System(sh', s.actors[a := pc]))
  {
    if s.actors[a].CountRetry? {
      CountRetryKeeps(maxRetries, s, a, sh', pc);
    } else {
      RecordResultKeeps(maxRetries, s, a, sh', pc);
    }
  }

  /** The holder of a retry counts it. */
  lemma CountRetryKeeps(maxRetries: int, s: System, a: nat, sh': Shared, pc: Pc)
    requires Inv(maxRetries, s) && a in s.actors && WriteStep(s.shared, s.actors[a], sh', pc) && s.actors[a].CountRetry?
    ensures Inv(maxRetries, System(sh', s.actors[a := pc]))
  {
    var id := s.actors[a].id;
    assert HolderOk(maxRetries, s.shared, s.actors[a]);
    assert BundleOk(maxRetries, s.shared.records[id], s.shared.history[id]);
    HolderIsAlone(maxRetries, s, a, id);
    RewriteKeeps(maxRetries, s, a, id, sh'.records[id], pc);
  }

  /** Recording a verdict's result moves nothing. */
  lemma RecordResultKeeps(maxRetries: int, s: System, a: nat, sh': Shared, pc: Pc)
    requires Inv(maxRetries, s) && a in s.actors && WriteStep(s.shared, s.actors[a], sh', pc)
    requires s.actors[a].RecordResult?
    ensures Inv(maxRetries, System(sh', s.actors[a := pc]))
  {
    var id := s.actors[a].id;
    assert HolderOk(maxRetries, s.shared, s.actors[a]);
    assert BundleOk(maxRetries, s.shared.records[id], s.shared.history[id]);
    HarmlessIsOk(maxRetries, sh', pc);
    RewriteKeeps(maxRetries, s, a, id, sh'.records[id], pc);
  }

  /** Everything but the retry count and the version number is the same. */
  predicate SamePlace(rec0: Record, rec: Record)
  {
    rec.id == rec0.id && rec.state == rec0.state && rec.sequence == rec0.sequence && rec.terminal == rec0.terminal
  }

  /** Rewriting a record without moving the bundle. */
  lemma RewriteKeeps(maxRetries: int, s: System, a: nat, id: BundleId, rec: Record, pc: Pc)
    requires Inv(maxRetries, s) && a in s.actors && id in s.shared.records
    requires SamePlace(s.shared.records[id], rec)
    requires rec.retryCount == s.shared.records[id].retryCount || Alone(s, a, id)
    requires Counted(maxRetries, rec, s.shared.history[id])
    requires HolderOk(maxRetries, s.shared.(records := s.shared.records[id := rec]), pc)
    requires forall x :: Holds(pc, x) ==> Alone(s, a, x)
    ensures Inv(maxRetries, System(s.shared.(records := s.shared.records[id := rec]), s.actors[a := pc]))
  {
    var sh, sh' := s.shared, s.shared.(records := s.shared.records[id := rec]);
    RewriteStore(maxRetries, sh, id, rec);
    forall b | b in s.actors && b != a
      ensures HolderOk(maxRetries, sh', s.actors[b])
    {
      RewriteOther(maxRetries, sh, id, rec, s.actors[b]);
    }
    ExclusiveStep(s, a, sh', pc);
    HoldersAfter(maxRetries, sh', s.actors, a, pc);
  }

  lemma RewriteStore(maxRetries: int, sh: Shared, id: BundleId, rec: Record)
    requires StoreOk(maxRetries, sh) && id in sh.records
    requires SamePlace(sh.records[id], rec) && Counted(maxRetries, rec, sh.history[id])
    requires rec.retryCount == sh.records[id].retryCount || id !in sh.retries
    ensures Indexed(sh.records[id := rec], sh.index)
    ensures AllOk(maxRetries, sh.records[id := rec], sh.history)
    ensures AllDue(sh.retries, sh.records[id := rec], sh.history)
  {
    var h := sh.history[id];
    IndexedRewrite(sh.records, sh.index, id, rec);
    assert BundleOk(maxRetries, rec, h) by {
      assert BundleOk(maxRetries, sh.records[id], h);
      KeptRewrite(sh.records[id], rec, h);
    }
    assert sh.history[id := h] == sh.history;
    WriteKeeps(maxRetries, sh, id, rec, h);
  }

  lemma KeptRewrite(rec0: Record, rec: Record, h: seq<BundleState>)
    requires Kept(rec0, h) && SamePlace(rec0, rec)
    ensures Kept(rec, h)
  {
  }

  lemma RewriteOther(maxRetries: int, sh: Shared, id: BundleId, rec: Record, pc: Pc)
    requires id in sh.records && HolderOk(maxRetries, sh, pc) && rec.state == sh.records[id].state
    requires rec.retryCount == sh.records[id].retryCount || !Holds(pc, id)
    ensures HolderOk(maxRetries, sh.(records := sh.records[id := rec]), pc)
  {
  }

  /** Handing the retry over to the schedule. */
  lemma ScheduleKeeps(maxRetries: int, s: System, a: nat, sh': Shared, pc: Pc)
    requires Inv(maxRetries, s) && a in s.actors && ScheduleStep(s.shared, s.actors[a], sh', pc)
    ensures Inv(maxRetries, System(sh', s.actors[a := pc]))
  {
    var id := s.actors[a].id;
    HolderIsAlone(maxRetries, s, a, id);
    assert HolderOk(maxRetries, s.shared, s.actors[a]);
    RetriesIrrelevant(maxRetries, s.shared, sh'.retries);
    ExclusiveSchedule(s, a, id);
  }

  lemma ExclusiveSchedule(s: System, a: nat, id: BundleId)
    requires Exclusive(s) && Alone(s, a, id)
    ensures Exclusive(System(s.shared.(retries := s.shared.retries + {id}), s.actors[a := Done]))
  {
  }

  /** Claiming a scheduled retry. */
  lemma ClaimKeeps(maxRetries: int, s: System, a: nat, id: BundleId)
    requires Inv(maxRetries, s) && a !in s.actors && id in s.shared.retries
    ensures Inv(maxRetries, System(s.shared.(retries := s.shared.retries - {id}), s.actors[a := RetryStart(id)]))
  {
    var sh, sh' := s.shared, s.shared.(retries := s.shared.retries - {id});
    RetriesIrrelevant(maxRetries, sh, sh.retries - {id});
    ExclusiveClaim(s, a, id);
    forall b | b in s.actors
      ensures HolderOk(maxRetries, sh', s.actors[b])
    {
      assert HolderOk(maxRetries, sh, s.actors[b]);
    }
    HoldersAfter(maxRetries, sh', s.actors, a, RetryStart(id));
  }

  lemma ExclusiveClaim(s: System, a: nat, id: BundleId)
    requires Exclusive(s) && id in s.shared.retries
    ensures Exclusive(System(s.shared.(retries := s.shared.retries - {id}), s.actors[a := RetryStart(id)]))
  {
    forall x
      ensures Holds(RetryStart(id), x) ==> x == id
    {
    }
  }

  lemma RetriesIrrelevant(maxRetries: int, sh: Shared, retries: set<BundleId>)
    requires StoreOk(maxRetries, sh) && AllDue(retries, sh.records, sh.history)
    ensures StoreOk(maxRetries, sh.(retries := retries))
    ensures forall p: Pc :: HolderOk(maxRetries, sh, p) ==> HolderOk(maxRetries, sh.(retries := retries), p)
  {
    forall p: Pc | HolderOk(maxRetries, sh, p)
      ensures HolderOk(maxRetries, sh.(retries := retries), p)
    {
    }
  }

  // ----- all steps

  lemma StartKeeps(maxRetries: int, s: System, a: nat, sh': Shared, pc: Pc)
    requires Inv(maxRetries, s) && a !in s.actors && Starts(s.shared, sh', pc)
    ensures Inv(maxRetries, System(sh', s.actors[a := pc]))
  {
    if pc.RetryStart? {
      ClaimKeeps(maxRetries, s, a, pc.id);
    } else {
      assert sh' == s.shared.(queue := sh'.queue);
      assert HolderOk(maxRetries, s.shared, pc) && forall x :: !Holds(pc, x);
      PcKeeps(maxRetries, s, a, sh'.queue, pc);
    }
  }

  lemma GiveUpKeeps(maxRetries: int, s: System, a: nat, pc: Pc)
    requires Inv(maxRetries, s) && a in s.actors && GivesUp(s.actors[a], pc)
    ensures Inv(maxRetries, s.(actors := s.actors[a := pc]))
  {
    assert HolderOk(maxRetries, s.shared, s.actors[a]);
    PcKeeps(maxRetries, s, a, s.shared.queue, pc);
    assert s.shared.(queue := s.shared.queue) == s.shared;
  }

  lemma DecideKeeps(maxRetries: int, s: System, a: nat, sh': Shared, pc: Pc)
    requires Inv(maxRetries, s) && a in s.actors && DecideStep(maxRetries, s.shared, s.actors[a], sh', pc)
    ensures Inv(maxRetries, System(sh', s.actors[a := pc]))
  {
    DecideFacts(maxRetries, s.shared, s.actors[a], sh', pc);
    assert HolderOk(maxRetries, s.shared, s.actors[a]);
    forall x | Holds(pc, x)
      ensures Alone(s, a, x)
    {
      HolderIsAlone(maxRetries, s, a, x);
    }
    PcKeeps(maxRetries, s, a, sh'.queue, pc);
  }

  /** A decision takes nothing new in hand, and what it goes on with is sound. */
  lemma DecideFacts(maxRetries: int, sh: Shared, pc: Pc, sh': Shared, pc': Pc)
    requires DecideStep(maxRetries, sh, pc, sh', pc') && HolderOk(maxRetries, sh, pc)
    ensures sh' == sh.(queue := sh'.queue)
    ensures HolderOk(maxRetries, sh, pc')
    ensures forall x :: Holds(pc', x) ==> Holds(pc, x)
  {
    match pc
    case SubmitDecide(id) => PushFacts(maxRetries, sh, id, SubmitQueue(id), Validated, sh', pc');
    case RetryPush(id) => PushFacts(maxRetries, sh, id, Done, Queued, sh', pc');
    case ProcessStart(id) =>
    case Simulate(id, count) =>
    case ScheduleRetry(id) =>
    case RetryStart(id) =>
  }

  lemma PushFacts(maxRetries: int, sh: Shared, id: BundleId, next: Pc, from: BundleState, sh': Shared, pc': Pc)
    requires next.SubmitQueue? || next.Done?
    requires from != Simulating
    requires || PushNext(sh, id, next, sh', pc')
             || (sh' == sh && pc'.Settle? && pc'.from == from && IsOutcome(pc'.terminal) && pc'.next == Done)
    ensures sh' == sh.(queue := sh'.queue)
    ensures HolderOk(maxRetries, sh, pc')
    ensures forall x :: !Holds(pc', x)
  {
  }

  lemma ProceedKeeps(maxRetries: int, s: System, a: nat, sh': Shared, pc: Pc)
    requires Inv(maxRetries, s) && a in s.actors && Proceeds(maxRetries, s.shared, s.actors[a], sh', pc)
    ensures Inv(maxRetries, System(sh', s.actors[a := pc]))
  {
    if CreateStep(s.shared, s.actors[a], sh', pc) {
      CreateKeeps(maxRetries, s, a, sh', pc);
    } else if EarlyStep(s.shared, s.actors[a], sh', pc) {
      EarlyKeeps(maxRetries, s, a, sh', pc);
    } else if HeldStep(s.shared, s.actors[a], sh', pc) {
      HeldKeeps(maxRetries, s, a, sh', pc);
    } else if LateStep(s.shared, s.actors[a], sh', pc) {
      LateKeeps(maxRetries, s, a, sh', pc);
    } else if SettleStep(s.shared, s.actors[a], sh', pc) {
      SettleKeeps(maxRetries, s, a, sh', pc);
    } else if WriteStep(s.shared, s.actors[a], sh', pc) {
      WriteStepKeeps(maxRetries, s, a, sh', pc);
    } else if ScheduleStep(s.shared, s.actors[a], sh', pc) {
      ScheduleKeeps(maxRetries, s, a, sh', pc);
    } else {
      DecideKeeps(maxRetries, s, a, sh', pc);
    }
  }

  lemma StepKeeps(maxRetries: int, s: System, s': System)
    requires Inv(maxRetries, s) && Step(maxRetries, s, s')
    ensures Inv(maxRetries, s')
  {
    if a: nat, pc :| a !in s.actors && Starts(s.shared, s'.shared, pc) && s'.actors == s.actors[a := pc] {
      StartKeeps(maxRetries, s, a, s'.shared, pc);
    } else if a: nat, pc :| a in s.actors && GivesUp(s.actors[a], pc) && s' == s.(actors := s.actors[a := pc]) {
      GiveUpKeeps(maxRetries, s, a, pc);
    } else {
      var a: nat, pc :| a in s.actors && Proceeds(maxRetries, s.shared, s.actors[a], s'.shared, pc)
                        && s'.actors == s.actors[a := pc];
      ProceedKeeps(maxRetries, s, a, s'.shared, pc);
    }
  }

  // ----- whole runs

  lemma InitialKeeps(maxRetries: int, s: System)
    requires Initial(s)
    ensures Inv(maxRetries, s)
  {
  }

  lemma NextKeeps(maxRetries: int, run: seq<System>, i: nat, j: nat)
    requires Run(maxRetries, run) && j == i + 1 && j < |run| && Inv(maxRetries, run[i])
    ensures Inv(maxRetries, run[j])
  {
    assert StepAt(maxRetries, run, i);
    StepKeeps(maxRetries, run[i], run[j]);
  }

  lemma {:induction false} RunKeeps(maxRetries: int, run: seq<System>, i: nat)
    requires Run(maxRetries, run) && i < |run|
    ensures Inv(maxRetries, run[i])
  {
    if i == 0 {
      InitialKeeps(maxRetries, run[0]);
    } else {
      RunKeeps(maxRetries, run, i - 1);
      NextKeeps(maxRetries, run, i - 1, i);
    }
  }

  /**
   * In every state of every interleaving, for every bundle: its states so far form a legal path that ends where the
   * record says, with at most one outcome, which is the recorded terminal; the sequence number is one more than the
   * number of transitions; and it entered simulation at most max(1, maxRetries) times.
   */
  lemma RelaySafety(maxRetries: int, run: seq<System>, i: nat, id: BundleId)
    requires Run(maxRetries, run) && i < |run| && id in run[i].shared.records
    ensures id in run[i].shared.history
    ensures var rec, h := run[i].shared.records[id], run[i].shared.history[id];
            && LegalPath(h) && h[|h| - 1] == rec.state
            && rec.sequence == 1 + (|h| - 1)
            && (forall j, k :: 0 <= j < |h| && 0 <= k < |h| && IsOutcome(h[j]) && IsOutcome(h[k]) ==> j == k)
            && (forall j :: 0 <= j < |h| && IsOutcome(h[j]) ==> rec.terminal == Some(h[j]))
            && (rec.terminal.Some? ==> rec.terminal.value in h && IsOutcome(rec.terminal.value))
            && Simulations(h) <= (if maxRetries > 1 then maxRetries else 1)
  {
    RunKeeps(maxRetries, run, i);
    var rec, h := run[i].shared.records[id], run[i].shared.history[id];
    assert BundleOk(maxRetries, rec, h);
    forall j, k | 0 <= j < |h| && 0 <= k < |h| && IsOutcome(h[j]) && IsOutcome(h[k])
      ensures j == k
    {
      OutcomeOnce(h, j, k);
    }
  }

  /** Bundles are never forgotten and their paths only grow. */
  ghost predicate Extends(sh: Shared, sh': Shared)
  {
    forall id :: id in sh.history ==> id in sh'.history && sh.history[id] <= sh'.history[id]
  }

  lemma StepExtends(maxRetries: int, s: System, s': System)
    requires Inv(maxRetries, s) && Step(maxRetries, s, s')
    ensures Extends(s.shared, s'.shared)
  {
    if a: nat, pc :| a !in s.actors && Starts(s.shared, s'.shared, pc) && s'.actors == s.actors[a := pc] {
    } else if a: nat, pc :| a in s.actors && GivesUp(s.actors[a], pc) && s' == s.(actors := s.actors[a := pc]) {
    } else {
      var a: nat, pc :| a in s.actors && Proceeds(maxRetries, s.shared, s.actors[a], s'.shared, pc)
                        && s'.actors == s.actors[a := pc];
      ProceedExtends(maxRetries, s.shared, s.actors[a], s'.shared, pc);
    }
  }

  lemma ProceedExtends(maxRetries: int, sh: Shared, pc: Pc, sh': Shared, pc': Pc)
    requires StoreOk(maxRetries, sh) && Proceeds(maxRetries, sh, pc, sh', pc')
    ensures Extends(sh, sh')
  {
    if CreateStep(sh, pc, sh', pc') {
      IndexedCreate(sh.records, sh.index, pc.id, 0);
    } else if EarlyStep(sh, pc, sh', pc') || HeldStep(sh, pc, sh', pc') {
      EarlyExtends(sh, pc, sh', pc');
    } else if LateStep(sh, pc, sh', pc') || SettleStep(sh, pc, sh', pc') {
      LateExtends(sh, pc, sh', pc');
    } else {
      QuietExtends(maxRetries, sh, pc, sh', pc');
    }
  }

  lemma EarlyExtends(sh: Shared, pc: Pc, sh': Shared, pc': Pc)
    requires EarlyStep(sh, pc, sh', pc') || HeldStep(sh, pc, sh', pc')
    ensures Extends(sh, sh')
  {
    MoveExtends(sh, pc.id, sh'.records[pc.id].state);
  }

  lemma LateExtends(sh: Shared, pc: Pc, sh': Shared, pc': Pc)
    requires LateStep(sh, pc, sh', pc') || SettleStep(sh, pc, sh', pc')
    ensures Extends(sh, sh')
  {
    MoveExtends(sh, pc.id, sh'.records[pc.id].state);
  }

  lemma QuietExtends(maxRetries: int, sh: Shared, pc: Pc, sh': Shared, pc': Pc)
    requires WriteStep(sh, pc, sh', pc') || ScheduleStep(sh, pc, sh', pc') || DecideStep(maxRetries, sh, pc, sh', pc')
    ensures Extends(sh, sh')
  {
    assert sh'.history == sh.history;
  }

  lemma MoveExtends(sh: Shared, id: BundleId, to: BundleState)
    requires id in sh.records && id in sh.history
    ensures Extends(sh, Moved(sh, id, to))
  {
  }

  lemma ExtendsTransitive(a: Shared, b: Shared, c: Shared)
    requires Extends(a, b) && Extends(b, c)
    ensures Extends(a, c)
  {
    forall id | id in a.history
      ensures id in c.history && a.history[id] <= c.history[id]
    {
      assert a.history[id] <= b.history[id];
    }
  }

  lemma NextExtends(maxRetries: int, run: seq<System>, i: nat)
    requires Run(maxRetries, run) && i + 1 < |run|
    ensures Extends(run[i].shared, run[i + 1].shared)
  {
    RunKeeps(maxRetries, run, i);
    assert StepAt(maxRetries, run, i);
    StepExtends(maxRetries, run[i], run[i + 1]);
  }

  lemma {:induction false} RunExtends(maxRetries: int, run: seq<System>, i: nat, j: nat)
    requires Run(maxRetries, run) && i <= j < |run|
    ensures Extends(run[i].shared, run[j].shared)
    decreases j - i
  {
    if i < j {
      RunExtends(maxRetries, run, i, j - 1);
      NextExtends(maxRetries, run, j - 1);
      ExtendsTransitive(run[i].shared, run[j - 1].shared, run[j].shared);
    }
  }

  /** Once set, the terminal of a bundle never changes, whatever happens afterwards. */
  lemma TerminalIsFinal(maxRetries: int, run: seq<System>, i: nat, j: nat, id: BundleId)
    requires Run(maxRetries, run) && i <= j < |run|
    requires id in run[i].shared.records && run[i].shared.records[id].terminal.Some?
    ensures id in run[j].shared.records
    ensures run[j].shared.records[id].terminal == run[i].shared.records[id].terminal
  {
    RelaySafety(maxRetries, run, i, id);
    RunExtends(maxRetries, run, i, j);
    RunKeeps(maxRetries, run, j);
    RelaySafety(maxRetries, run, j, id);
    var h, t := run[i].shared.history[id], run[i].shared.records[id].terminal.value;
    var k :| 0 <= k < |h| && h[k] == t;
    assert run[j].shared.history[id][k] == t;
  }
}

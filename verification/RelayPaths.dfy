/** The paths bundles may take through the relay, and that no interleaving takes another. */
module RelayPaths {
  import opened Lifecycle
  import opened RelayStore
  import opened RelayProtocol

  /** What the relay may do next with a bundle that has come along `h`: part of the lifecycle table. */
  ghost predicate MayFollow(maxRetries: int, h: seq<BundleState>, to: BundleState)
    requires |h| > 0
  {
    match h[|h| - 1]
    case Received => to == Validated
    case Validated => to == Queued || to == Rejected
    case Queued => to == Simulating || to == Rejected || (to == DeadLetter && RetryPending in h)
    case Simulating => to == Simulated || to == DeadLetter || (to == RetryPending && Simulations(h) <= maxRetries)
    case RetryPending => to == DeadLetter || (to == Queued && Simulations(h) < maxRetries)
    case Simulated => to == Scored
    case Scored => to == Forwarded || to == Rejected
    case Forwarded => to == Persisted
    case Rejected => to == Persisted
    case DeadLetter => to == Persisted
    case Persisted => to == Completed
    case Completed => false
  }

  ghost predicate RelayPath(maxRetries: int, h: seq<BundleState>)
  {
    if |h| <= 1 then h == [Received]
    else RelayPath(maxRetries, h[..|h| - 1]) && MayFollow(maxRetries, h[..|h| - 1], h[|h| - 1])
  }

  ghost predicate PathOk(maxRetries: int, sh: Shared, id: BundleId)
  {
    id in sh.history ==> RelayPath(maxRetries, sh.history[id])
  }

  ghost predicate Enters(sh: Shared, id: BundleId, sh': Shared)
  {
    sh'.history == sh.history[id := [Received]]
  }

  /** A bundle goes one step further. */
  ghost predicate Follows(maxRetries: int, sh: Shared, id: BundleId, to: BundleState, sh': Shared)
  {
    && id in sh.history && |sh.history[id]| > 0 && MayFollow(maxRetries, sh.history[id], to)
    && sh'.history == sh.history[id := sh.history[id] + [to]]
  }

  /** A step adds a bundle, or takes one a step further, or leaves all paths as they are. */
  ghost predicate Grows(maxRetries: int, sh: Shared, sh': Shared)
  {
    || sh'.history == sh.history
    || (exists id :: Enters(sh, id, sh'))
    || (exists id, to :: Follows(maxRetries, sh, id, to, sh'))
  }

  lemma GrowsKeeps(maxRetries: int, sh: Shared, sh': Shared, x: BundleId)
    requires PathOk(maxRetries, sh, x) && Grows(maxRetries, sh, sh')
    ensures PathOk(maxRetries, sh', x)
  {
    if id, to :| Follows(maxRetries, sh, id, to, sh') {
      var h := sh.history[id];
      assert (h + [to])[..|h|] == h;
    }
  }

  ghost predicate Retried(sh: Shared, id: BundleId)
  {
    id in sh.history && RetryPending in sh.history[id]
  }

  /** Which bundles the relay gives up on, and how. */
  ghost predicate SettleSound(sh: Shared, id: BundleId, from: BundleState, terminal: BundleState)
  {
    || (from == Validated && terminal == Rejected)
    || (from == Queued && (terminal == Rejected || (terminal == DeadLetter && Retried(sh, id))))
    || (from == Simulating && terminal == DeadLetter)
    || (from == RetryPending && terminal == DeadLetter)
  }

  ghost predicate PcSound(sh: Shared, pc: Pc)
  {
    (pc.RetryPush? ==> Retried(sh, pc.id)) && (pc.Settle? ==> SettleSound(sh, pc.id, pc.from, pc.terminal))
  }

  ghost predicate PathInv(maxRetries: int, s: System)
  {
    && (forall id :: PathOk(maxRetries, s.shared, id))
    && (forall a {:trigger s.actors[a]} :: a in s.actors ==> PcSound(s.shared, s.actors[a]))
  }

  lemma StayedSound(sh: Shared, sh': Shared, pc: Pc)
    requires Extends(sh, sh') && PcSound(sh, pc)
    ensures PcSound(sh', pc)
  {
    if pc.RetryPush? || pc.Settle? {
      RetriedStays(sh, sh', pc.id);
    }
  }

  lemma RetriedStays(sh: Shared, sh': Shared, id: BundleId)
    requires Extends(sh, sh')
    ensures Retried(sh, id) ==> Retried(sh', id)
  {
    if Retried(sh, id) {
      var k :| 0 <= k < |sh.history[id]| && sh.history[id][k] == RetryPending;
      assert sh'.history[id][k] == RetryPending;
    }
  }

  /** What is known of a bundle that is about to move. */
  ghost predicate Known(maxRetries: int, sh: Shared, id: BundleId)
  {
    id in sh.records && id in sh.history ==>
      var rec, h := sh.records[id], sh.history[id];
      |h| > 0 && h[|h| - 1] == rec.state && Counted(maxRetries, rec, h)
  }

  lemma StoreKnows(maxRetries: int, sh: Shared, id: BundleId)
    requires StoreOk(maxRetries, sh)
    ensures Known(maxRetries, sh, id)
  {
    if id in sh.records {
      assert BundleOk(maxRetries, sh.records[id], sh.history[id]);
    }
  }

  lemma EarlyGrows(maxRetries: int, sh: Shared, pc: Pc, sh': Shared, pc': Pc)
    requires !pc.Done? && Known(maxRetries, sh, pc.id) && EarlyStep(sh, pc, sh', pc')
    ensures Grows(maxRetries, sh, sh') && PcSound(sh', pc')
  {
    match pc
    case SubmitValidate(id) => assert Follows(maxRetries, sh, id, Validated, sh');
    case SubmitQueue(id) => assert Follows(maxRetries, sh, id, Queued, sh');
    case ProcessPick(id) => assert Follows(maxRetries, sh, id, Simulating, sh');
  }

  lemma HeldGrows(maxRetries: int, sh: Shared, pc: Pc, sh': Shared, pc': Pc)
    requires !pc.Done? && Known(maxRetries, sh, pc.id) && HolderOk(maxRetries, sh, pc) && HeldStep(sh, pc, sh', pc')
    ensures Grows(maxRetries, sh, sh') && PcSound(sh', pc')
  {
    match pc
    case ToRetry(id, _) => assert Follows(maxRetries, sh, id, RetryPending, sh');
    case ToSimulated(id) => assert Follows(maxRetries, sh, id, Simulated, sh');
    case RetryQueue(id) =>
      assert Follows(maxRetries, sh, id, Queued, sh');
      assert sh'.history[id][|sh.history[id]| - 1] == RetryPending;
  }

  lemma LateGrows(maxRetries: int, sh: Shared, pc: Pc, sh': Shared, pc': Pc)
    requires !pc.Done? && Known(maxRetries, sh, pc.id) && HolderOk(maxRetries, sh, pc) && LateStep(sh, pc, sh', pc')
    ensures Grows(maxRetries, sh, sh') && PcSound(sh', pc')
  {
    match pc
    case ToScored(id) => assert Follows(maxRetries, sh, id, Scored, sh');
    case ToVerdict(id) => assert Follows(maxRetries, sh, id, pc'.verdict, sh');
    case Persist(id, terminal, next) => assert Follows(maxRetries, sh, id, Persisted, sh');
    case Complete(id, next) => assert Follows(maxRetries, sh, id, Completed, sh');
  }

  lemma SettleGrows(maxRetries: int, sh: Shared, pc: Pc, sh': Shared, pc': Pc)
    requires !pc.Done? && Known(maxRetries, sh, pc.id) && PcSound(sh, pc) && SettleStep(sh, pc, sh', pc')
    ensures Grows(maxRetries, sh, sh') && PcSound(sh', pc')
  {
    assert Follows(maxRetries, sh, pc.id, pc.terminal, sh');
  }

  lemma QuietGrows(maxRetries: int, sh: Shared, pc: Pc, sh': Shared, pc': Pc)
    requires CreateStep(sh, pc, sh', pc') || WriteStep(sh, pc, sh', pc') || ScheduleStep(sh, pc, sh', pc')
    ensures Grows(maxRetries, sh, sh') && PcSound(sh', pc')
  {
    if CreateStep(sh, pc, sh', pc') {
      assert Enters(sh, pc.id, sh');
    }
  }

  lemma DecideGrows(maxRetries: int, sh: Shared, pc: Pc, sh': Shared, pc': Pc)
    requires PcSound(sh, pc) && DecideStep(maxRetries, sh, pc, sh', pc')
    ensures sh'.history == sh.history && PcSound(sh', pc')
  {
  }

  lemma ProceedGrows(maxRetries: int, sh: Shared, pc: Pc, sh': Shared, pc': Pc)
    requires !pc.Done? && Known(maxRetries, sh, pc.id) && HolderOk(maxRetries, sh, pc) && PcSound(sh, pc)
    requires Proceeds(maxRetries, sh, pc, sh', pc')
    ensures Grows(maxRetries, sh, sh') && PcSound(sh', pc')
  {
    if EarlyStep(sh, pc, sh', pc') {
      EarlyGrows(maxRetries, sh, pc, sh', pc');
    } else if HeldStep(sh, pc, sh', pc') {
      HeldGrows(maxRetries, sh, pc, sh', pc');
    } else if LateStep(sh, pc, sh', pc') {
      LateGrows(maxRetries, sh, pc, sh', pc');
    } else if SettleStep(sh, pc, sh', pc') {
      SettleGrows(maxRetries, sh, pc, sh', pc');
    } else if DecideStep(maxRetries, sh, pc, sh', pc') {
      DecideGrows(maxRetries, sh, pc, sh', pc');
    } else {
      QuietGrows(maxRetries, sh, pc, sh', pc');
    }
  }

  lemma ProceedsNotDone(maxRetries: int, sh: Shared, pc: Pc, sh': Shared, pc': Pc)
    requires Proceeds(maxRetries, sh, pc, sh', pc')
    ensures !pc.Done?
  {
  }

  lemma GivesUpSound(maxRetries: int, sh: Shared, pc: Pc, pc': Pc)
    requires HolderOk(maxRetries, sh, pc) && GivesUp(pc, pc')
    ensures PcSound(sh, pc')
  {
  }

  lemma StepGrows(maxRetries: int, s: System, s': System) returns (a: nat, pc: Pc)
    requires Inv(maxRetries, s) && PathInv(maxRetries, s) && Step(maxRetries, s, s')
    ensures s'.actors == s.actors[a := pc] && PcSound(s'.shared, pc) && Grows(maxRetries, s.shared, s'.shared)
  {
    if b: nat, p :| b !in s.actors && Starts(s.shared, s'.shared, p) && s'.actors == s.actors[b := p] {
      a, pc := b, p;
    } else if b: nat, p :| b in s.actors && GivesUp(s.actors[b], p) && s' == s.(actors := s.actors[b := p]) {
      a, pc := b, p;
      assert HolderOk(maxRetries, s.shared, s.actors[a]);
      GivesUpSound(maxRetries, s.shared, s.actors[a], pc);
    } else {
      a, pc :| a in s.actors && Proceeds(maxRetries, s.shared, s.actors[a], s'.shared, pc)
               && s'.actors == s.actors[a := pc];
      assert HolderOk(maxRetries, s.shared, s.actors[a]);
      ProceedsNotDone(maxRetries, s.shared, s.actors[a], s'.shared, pc);
      StoreKnows(maxRetries, s.shared, s.actors[a].id);
      ProceedGrows(maxRetries, s.shared, s.actors[a], s'.shared, pc);
    }
  }

  lemma StepPath(maxRetries: int, s: System, s': System)
    requires Inv(maxRetries, s) && PathInv(maxRetries, s) && Step(maxRetries, s, s')
    ensures PathInv(maxRetries, s')
  {
    var a, pc := StepGrows(maxRetries, s, s');
    StepExtends(maxRetries, s, s');
    forall b | b in s.actors
      ensures PcSound(s'.shared, s.actors[b])
    {
      StayedSound(s.shared, s'.shared, s.actors[b]);
    }
    forall id
      ensures PathOk(maxRetries, s'.shared, id)
    {
      GrowsKeeps(maxRetries, s.shared, s'.shared, id);
    }
  }

  lemma {:induction false} RunPaths(maxRetries: int, run: seq<System>, i: nat)
    requires Run(maxRetries, run) && i < |run|
    ensures PathInv(maxRetries, run[i])
  {
    if i == 0 {
    } else {
      RunPaths(maxRetries, run, i - 1);
      NextPath(maxRetries, run, i - 1, i);
    }
  }

  lemma NextPath(maxRetries: int, run: seq<System>, i: nat, j: nat)
    requires Run(maxRetries, run) && j == i + 1 && j < |run| && PathInv(maxRetries, run[i])
    ensures PathInv(maxRetries, run[j])
  {
    RunKeeps(maxRetries, run, i);
    assert StepAt(maxRetries, run, i);
    StepPath(maxRetries, run[i], run[j]);
  }
}

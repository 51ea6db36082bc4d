/** The lifecycle of a bundle: which state may follow which, and what whole paths look like. */
module Lifecycle {

  datatype BundleState =
    | Received | Validated | Queued | Simulating | Simulated | Scored | RetryPending
    | Forwarded | Rejected | DeadLetter | Persisted | Completed

  predicate CanTransition(from: BundleState, to: BundleState)
  {
    match from
    case Received => to == Validated || to == DeadLetter || to == Rejected
    case Validated => to == Queued || to == DeadLetter || to == Rejected
    case Queued => to == Simulating || to == DeadLetter || to == Rejected
    case Simulating => to == Simulated || to == RetryPending || to == Rejected || to == DeadLetter
    case Simulated => to == Scored || to == DeadLetter || to == Rejected
    case Scored => to == Forwarded || to == DeadLetter || to == Rejected
    case RetryPending => to == Queued || to == DeadLetter
    case Forwarded => to == Persisted
    case Rejected => to == Persisted
    case DeadLetter => to == Persisted
    case Persisted => to == Completed
    case Completed => false
  }

  /** The table read backwards: which states lead to a state. */
  lemma Predecessors(from: BundleState, to: BundleState)
    ensures CanTransition(from, to) <==>
            match to
            case Received => false
            case Validated => from == Received
            case Queued => from == Validated || from == RetryPending
            case Simulating => from == Queued
            case Simulated => from == Simulating
            case RetryPending => from == Simulating
            case Scored => from == Simulated
            case Forwarded => from == Scored
            case Rejected => !Dead(from) && from != RetryPending
            case DeadLetter => !Dead(from)
            case Persisted => from == Forwarded || from == Rejected || from == DeadLetter
            case Completed => from == Persisted
  {
  }

  /** The three ways a bundle can end. */
  predicate IsOutcome(s: BundleState)
  {
    s == Forwarded || s == Rejected || s == DeadLetter
  }

  /** Past the decision: an outcome or what follows it. */
  predicate Dead(s: BundleState)
  {
    IsOutcome(s) || s == Persisted || s == Completed
  }

  ghost predicate LegalPath(h: seq<BundleState>)
  {
    && |h| > 0 && h[0] == Received
    && forall i :: 0 < i < |h| ==> CanTransition(h[i - 1], h[i])
  }

  lemma LegalPathExtends(h: seq<BundleState>, to: BundleState)
    requires LegalPath(h) && CanTransition(h[|h| - 1], to)
    ensures LegalPath(h + [to])
  {
  }

  /** After an outcome only bookkeeping states follow. */
  lemma {:induction false} AfterOutcome(h: seq<BundleState>, i: nat, j: nat)
    requires LegalPath(h) && i < j < |h| && IsOutcome(h[i])
    ensures h[j] == if j == i + 1 then Persisted else Completed
    ensures j <= i + 2
    decreases j
  {
    assert CanTransition(h[j - 1], h[j]);
    if i < j - 1 {
      AfterOutcome(h, i, j - 1);
    }
  }

  /** A legal path has at most one outcome, and none before it is past the decision. */
  lemma OutcomeOnce(h: seq<BundleState>, i: nat, j: nat)
    requires LegalPath(h) && i < |h| && j < |h| && IsOutcome(h[i]) && IsOutcome(h[j])
    ensures i == j
  {
    if i < j {
      AfterOutcome(h, i, j);
    } else if j < i {
      AfterOutcome(h, j, i);
    }
  }

  /** How often a bundle entered simulation. */
  ghost function Simulations(h: seq<BundleState>): nat
  {
    multiset(h)[Simulating]
  }
}

/** The life of a Forge run: packages/forge-domain/src/run/run-state-machine.ts. */
module Runs {

  datatype RunState =
    | Draft | Queued | Provisioning | Running | AwaitingApproval | Cancelling | Validating
    | AwaitingReview | Publishing | Completed | Failed | Cancelled | Expired

  predicate Active(s: RunState) {
    s in {Queued, Provisioning, Running, AwaitingApproval, Cancelling, Validating, AwaitingReview, Publishing}
  }

  predicate Cancellable(s: RunState) {
    s in {Queued, Provisioning, Running, AwaitingApproval, Validating}
  }

  function LegalNext(s: RunState): set<RunState> {
    match s
    case Draft => {Queued, Cancelled}
    case Queued => {Provisioning, Cancelling, Failed, Expired}
    case Provisioning => {Running, Cancelling, Failed, Expired}
    case Running => {AwaitingApproval, Validating, Cancelling, Failed, Expired}
    case AwaitingApproval => {Running, Cancelling, Failed, Expired}
    case Cancelling => {Cancelled, Failed}
    case Validating => {AwaitingReview, Cancelling, Failed, Expired}
    case AwaitingReview => {Publishing, Completed, Failed, Expired}
    case Publishing => {Completed, Failed}
    case _ => {}
  }

  predicate CanTransition(current: RunState, next: RunState) {
    next in LegalNext(current)
  }

  /** How far a run has got; only the approval wait goes back. */
  function Progress(s: RunState): nat {
    match s
    case Draft => 0
    case Queued => 1
    case Provisioning => 2
    case Running => 3
    case AwaitingApproval => 3
    case Validating => 4
    case Cancelling => 5
    case AwaitingReview => 5
    case Publishing => 6
    case _ => 7
  }

  /** A legal step never goes back, and publishing is reached from awaiting review only. */
  lemma TransitionsProgress(s: RunState, t: RunState)
    requires CanTransition(s, t)
    ensures Progress(s) < Progress(t) || (Progress(s) == Progress(t) == 3 && s != t)
    ensures t == Publishing ==> s == AwaitingReview
    ensures t == AwaitingReview ==> s == Validating
  {
  }

  /** The states a run can be left for: the other reading of the table, target by target. */
  lemma LegalSources(s: RunState, t: RunState)
    ensures CanTransition(s, t) <==>
              match t
              case Draft => false
              case Queued => s == Draft
              case Provisioning => s == Queued
              case Running => s == Provisioning || s == AwaitingApproval
              case AwaitingApproval => s == Running
              case Validating => s == Running
              case AwaitingReview => s == Validating
              case Publishing => s == AwaitingReview
              case Completed => s == AwaitingReview || s == Publishing
              case Cancelled => s == Draft || s == Cancelling
              case Cancelling => 1 <= Progress(s) <= 4
              case Expired => 1 <= Progress(s) <= 4 || s == AwaitingReview
              case Failed => 1 <= Progress(s) <= 6
  {
  }

  /** A run is active when it has left the draft and can still move, and may be cancelled when the table says so. */
  lemma ActiveAndCancellable(s: RunState)
    ensures Active(s) <==> s != Draft && exists t :: CanTransition(s, t)
    ensures Cancellable(s) <==> CanTransition(s, Cancelling)
    ensures Active(s) <==> !(s == Draft || s == Completed || s == Failed || s == Cancelled || s == Expired)
  {
    if s != Draft && Active(s) { assert CanTransition(s, Failed); }
  }
}

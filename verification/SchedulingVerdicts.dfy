/**
 What a scheduling decision says, read off the statuses of the entries alone: which
 endings end the instance and how, what happens to the entries that still wait,
 and when the next one is started.
 */
module SchedulingVerdicts {
  import opened Wrappers
  import opened Statuses
  import opened Scheduling

  /** Some entry has this status. */
  predicate Any(states: seq<EntryState>, status: EntryStatus) {
    exists i :: 0 <= i < |states| && states[i].status == status
  }

  /** Some entry was canceled or aborted, or has failed where a failure stops the rest. */
  predicate Ended(states: seq<EntryState>, policy: Policy) {
    Any(states, Canceled) || Any(states, Aborted) || (policy.StopOnFailure? && Any(states, Failed))
  }

  predicate Unfinished(states: seq<EntryState>) {
    Any(states, Running) || Any(states, Pending)
  }

  /** Entry `i` waits and every entry before it has finished. */
  predicate FirstWaiting(states: seq<EntryState>, i: nat) {
    i < |states| && states[i].status.Pending? && forall j | 0 <= j < i :: states[j].status.Terminal()
  }

  /** Where the entries stand, as far as statuses can tell. */
  lemma Standing(states: seq<EntryState>, policy: Policy)
    requires Serial(states, policy)
    ensures var k := Front(states, policy);
            && (forall i | 0 <= i < k :: states[i].status.Succeeded? || (states[i].status.Failed? && policy.ContinueOnFailure?))
            && (Ended(states, policy) <==> Stopped(states, policy, k))
            && (Stopped(states, policy, k) ==>
                  && (states[k].status.Canceled? <==> Any(states, Canceled))
                  && (states[k].status.Aborted? <==> Any(states, Aborted))
                  && (states[k].status.Failed? <==> policy.StopOnFailure? && Any(states, Failed))
                  && !Any(states, Running))
            && (!Stopped(states, policy, k) ==> (Unfinished(states) <==> k < |states|))
            && (k < |states| && !Stopped(states, policy, k) ==>
                  && (Any(states, Running) <==> states[k].status.Running?)
                  && (!Any(states, Running) ==> FirstWaiting(states, k)))
  {
    FrontPassed(states, policy);
    if Stopped(states, policy, Front(states, policy)) {
      StoppedStanding(states, policy);
    } else {
      OpenStanding(states, policy);
    }
    hide *;
  }

  lemma FrontPassed(states: seq<EntryState>, policy: Policy)
    ensures forall i | 0 <= i < Front(states, policy) ::
              states[i].status.Succeeded? || (states[i].status.Failed? && policy.ContinueOnFailure?)
  {
    hide Front;
  }

  lemma StoppedStanding(states: seq<EntryState>, policy: Policy)
    requires Serial(states, policy) && Stopped(states, policy, Front(states, policy))
    ensures var status := states[Front(states, policy)].status;
            && Ended(states, policy) && !Any(states, Running)
            && (status.Canceled? <==> Any(states, Canceled)) && (status.Aborted? <==> Any(states, Aborted))
            && (status.Failed? <==> policy.StopOnFailure? && Any(states, Failed))
  {
    var k := Front(states, policy);
    FrontPassed(states, policy);
    assert Any(states, states[k].status);
    hide Front;
    forall i | 0 <= i < |states| && i != k
      ensures !states[i].status.Canceled? && !states[i].status.Aborted? && !states[i].status.Running?
      ensures policy.StopOnFailure? ==> !states[i].status.Failed?
    {
    }
  }

  lemma OpenStanding(states: seq<EntryState>, policy: Policy)
    requires Serial(states, policy) && !Stopped(states, policy, Front(states, policy))
    ensures !Ended(states, policy)
    ensures var k := Front(states, policy);
            && (Unfinished(states) <==> k < |states|)
            && (k < |states| ==>
                  && (Any(states, Running) <==> states[k].status.Running?)
                  && (!Any(states, Running) ==> FirstWaiting(states, k)))
  {
    var k := Front(states, policy);
    FrontPassed(states, policy);
    if k < |states| { assert Any(states, states[k].status); }
    hide Front;
    forall i | k < i < |states|
      ensures states[i].status.Pending?
    {
    }
  }

  /**
   How the instance ends: CANCELED or ABORTED as soon as an entry did, FAILED at the
   first failure under STOP and when all have finished under CONTINUE, SUCCEEDED when
   every entry did; and otherwise it has not ended.
   */
  lemma FinalExactly(states: seq<EntryState>, policy: Policy)
    requires Serial(states, policy)
    ensures Decide(states, policy).Some?
    ensures var final := Decide(states, policy).value.final;
            && (final == Some(InstanceCanceled) <==> Any(states, Canceled))
            && (final == Some(InstanceAborted) <==> Any(states, Aborted))
            && (final == Some(InstanceFailed) <==>
                  Any(states, Failed) && (policy.StopOnFailure? || (!Ended(states, policy) && !Unfinished(states))))
            && (final == Some(InstanceSucceeded) <==> forall i | 0 <= i < |states| :: states[i].status.Succeeded?)
            && (final.None? <==> !Ended(states, policy) && Unfinished(states))
  {
    Standing(states, policy);
    var k := Front(states, policy);
    assert AnyFailed(states) <==> Any(states, Failed);
    if k < |states| { assert Any(states, states[k].status); }
    hide Front, Serial, Skips;
  }

  /**
   An entry is started exactly when nothing has ended the instance, nothing runs, and
   it is the first that waits; so under CONTINUE the one behind a failure is.
   */
  lemma NextExactly(states: seq<EntryState>, policy: Policy, i: nat)
    requires Serial(states, policy) && i < |states|
    requires forall j | 0 <= j < |states| && j != i :: states[j].entryId != states[i].entryId
    ensures Decide(states, policy).Some?
    ensures Decide(states, policy).value.next == Some(states[i].entryId)
       <==> !Ended(states, policy) && !Any(states, Running) && FirstWaiting(states, i)
  {
    Standing(states, policy);
    var k := Front(states, policy);
    hide Front, Serial, Skips, Ended, Any;
    if FirstWaiting(states, i) && FirstWaiting(states, k) { assert i == k; }
    if FirstWaiting(states, i) { assert Any(states, Pending) by { WaitingIsAny(states, i); } }
  }

  lemma WaitingIsAny(states: seq<EntryState>, i: nat)
    requires i < |states| && states[i].status.Pending?
    ensures Any(states, Pending)
  {
  }

  lemma {:induction false} SkipsHold(states: seq<EntryState>, from: nat, cause: SkipCause, t: Transition)
    requires from <= |states|
    ensures t in Skips(states, from, cause) <==>
      exists i :: from <= i < |states| && states[i].status.Pending?
        && t == Transition(states[i].entryId, Pending, EntryStatus.Skipped, cause)
    decreases |states| - from
  {
    if from < |states| {
      SkipsFrom(states, from, cause);
      SkipsHold(states, from + 1, cause, t);
      hide Skips;
    }
  }

  /** Why the entries behind an ending are skipped. */
  predicate CauseFits(states: seq<EntryState>, cause: SkipCause) {
    && (cause.PriorCancellation? <==> Any(states, Canceled))
    && (cause.PriorAbort? <==> Any(states, Aborted))
    && (cause.PriorFailure? <==> Any(states, Failed) && !Any(states, Canceled) && !Any(states, Aborted))
  }

  /** Once the instance has ended, every entry that waits is to be skipped, for the cause that ended it, and nothing else. */
  lemma SkipsExactly(states: seq<EntryState>, policy: Policy, t: Transition)
    requires Serial(states, policy) && Ended(states, policy)
    ensures Decide(states, policy).Some?
    ensures t in Decide(states, policy).value.transitions <==>
      exists i :: 0 <= i < |states| && states[i].status.Pending? && t.entryId == states[i].entryId
        && t.from == Pending && t.to == EntryStatus.Skipped && CauseFits(states, t.cause)
  {
    Standing(states, policy);
    var k := Front(states, policy);
    var cause := StopFor(states[k].status, policy).value.cause;
    SkipsHold(states, k + 1, cause, t);
    assert Any(states, states[k].status);
    assert forall c :: CauseFits(states, c) <==> c == cause;
    forall i | 0 <= i <= k
      ensures !states[i].status.Pending?
    {
    }
    hide Front, Serial, Skips, Ended, Any, CauseFits;
  }
}

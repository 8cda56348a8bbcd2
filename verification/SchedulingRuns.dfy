/**
 Whole runs of an instance: advancing by the scheduler's decisions, applying any
 part of them at a time, and finishing the running entry.
 */
module SchedulingRuns {
  import opened Wrappers
  import opened Statuses
  import opened Scheduling

  datatype Action =
    | Advance(applied: set<nat>)     // the transitions that were carried out, by position
    | Finish(status: EntryStatus)    // the running entry reaches a terminal status

  function Find(transitions: seq<Transition>, id: string): Option<Transition> {
    if transitions == [] then None
    else if transitions[0].entryId == id then Some(transitions[0])
    else Find(transitions[1..], id)
  }

  /** One entry after the decided transitions of the applied positions. */
  function Moved(s: EntryState, i: nat, d: Decision, applied: set<nat>): EntryState {
    var t := Find(d.transitions, s.entryId);
    if i in applied && t.Some? then EntryState(s.entryId, t.value.to, t.value.cause) else s
  }

  function Step(states: seq<EntryState>, policy: Policy, a: Action): seq<EntryState> {
    match a
    case Advance(applied) =>
      var d := Decide(states, policy);
      if d.None? then states
      else seq(|states|, i requires 0 <= i < |states| => Moved(states[i], i, d.value, applied))
    case Finish(status) =>
      var k := Front(states, policy);
      if k < |states| && states[k].status.Running? && EntryStatus.Running.CanTransitionTo(status)
      then states[k := EntryState(states[k].entryId, status, NoCause)]
      else states
  }

  predicate DistinctIds(states: seq<EntryState>) {
    forall i, j | 0 <= i < j < |states| :: states[i].entryId != states[j].entryId
  }

  /** The states of one instance: one per entry, and what serial execution can produce. */
  predicate Sound(states: seq<EntryState>, policy: Policy) {
    DistinctIds(states) && Serial(states, policy)
  }

  lemma {:induction false} FindInSkips(states: seq<EntryState>, from: nat, cause: SkipCause, i: nat)
    requires DistinctIds(states) && from <= |states| && i < |states|
    ensures Find(Skips(states, from, cause), states[i].entryId)
         == if i >= from && states[i].status.Pending?
            then Some(Transition(states[i].entryId, Pending, EntryStatus.Skipped, cause)) else None
    decreases |states| - from
  {
    if from < |states| {
      SkipsFrom(states, from, cause);
      FindInSkips(states, from + 1, cause, i);
      if states[from].status.Pending? {
        var all := Skips(states, from, cause);
        assert all[1..] == Skips(states, from + 1, cause);
      }
    }
  }

  /** Where one entry stands after advancing. */
  function AdvancedAt(states: seq<EntryState>, policy: Policy, applied: set<nat>, i: nat): EntryState
    requires i < |states|
  {
    var k, s := Front(states, policy), states[i];
    if i !in applied || !s.status.Pending? then s
    else if Stopped(states, policy, k) then
      if i > k then EntryState(s.entryId, EntryStatus.Skipped, StopFor(states[k].status, policy).value.cause) else s
    else if i == k then EntryState(s.entryId, Running, NoCause)
    else s
  }

  lemma FindWhenStopped(states: seq<EntryState>, policy: Policy, i: nat)
    requires Sound(states, policy) && i < |states| && Stopped(states, policy, Front(states, policy))
    ensures Decide(states, policy).Some?
    ensures var k, s := Front(states, policy), states[i];
            Find(Decide(states, policy).value.transitions, s.entryId)
            == if i > k && s.status.Pending?
               then Some(Transition(s.entryId, Pending, EntryStatus.Skipped, StopFor(states[k].status, policy).value.cause))
               else None
  {
    var k := Front(states, policy);
    FindInSkips(states, k + 1, StopFor(states[k].status, policy).value.cause, i);
    hide Front, Skips, Serial, DistinctIds, Find;
  }

  lemma FindAtFront(states: seq<EntryState>, policy: Policy, i: nat)
    requires Sound(states, policy) && i < |states| && !Stopped(states, policy, Front(states, policy))
    ensures Decide(states, policy).Some?
    ensures Find(Decide(states, policy).value.transitions, states[i].entryId)
         == if i == Front(states, policy) && states[i].status.Pending?
            then Some(Transition(states[i].entryId, Pending, Running, NoCause)) else None
  {
    var k := Front(states, policy);
    if k < |states| && states[k].status.Pending? {
      var t := Transition(states[k].entryId, Pending, Running, NoCause);
      assert Decide(states, policy).value.transitions == [t];
      assert [t][1..] == [];
      assert states[i].entryId == states[k].entryId <==> i == k;
    }
    hide Front, Skips;
  }

  /** What advancing does at every position. */
  lemma AdvanceAt(states: seq<EntryState>, policy: Policy, applied: set<nat>, i: nat)
    requires Sound(states, policy) && i < |states|
    ensures Step(states, policy, Advance(applied))[i] == AdvancedAt(states, policy, applied, i)
  {
    if Stopped(states, policy, Front(states, policy)) {
      FindWhenStopped(states, policy, i);
    } else {
      FindAtFront(states, policy, i);
    }
    hide Sound, Decide, Find, Front, Stopped;
  }

  lemma StepKeepsIds(states: seq<EntryState>, policy: Policy, a: Action)
    ensures |Step(states, policy, a)| == |states|
    ensures forall i | 0 <= i < |states| :: Step(states, policy, a)[i].entryId == states[i].entryId
  {
  }

  /** Every change of an entry is one its lifecycle allows. */
  lemma StepIsLegal(states: seq<EntryState>, policy: Policy, a: Action, i: nat)
    requires Sound(states, policy) && i < |states|
    ensures var after := Step(states, policy, a)[i];
            after == states[i] || states[i].status.CanTransitionTo(after.status)
  {
    if a.Advance? { AdvanceAt(states, policy, a.applied, i); }
    hide Sound, Serial;
  }

  /** The shape of serial execution is never lost, whatever part of a decision is carried out. */
  lemma StepKeepsSound(states: seq<EntryState>, policy: Policy, a: Action)
    requires Sound(states, policy)
    ensures Sound(Step(states, policy, a), policy)
  {
    var after, k := Step(states, policy, a), Front(states, policy);
    StepKeepsIds(states, policy, a);
    match a {
      case Advance(applied) =>
        forall i | 0 <= i < |states|
          ensures i < k ==> after[i] == states[i]
        {
          AdvanceAt(states, policy, applied, i);
        }
        AdvanceKeepsSerial(states, policy, applied);
      case Finish(status) => FinishKeepsSerial(states, policy, status);
    }
    hide Serial, Step;
  }

  predicate WaitsOrSkipped(s: EntryState, stop: EntryState, policy: Policy)
    requires StopFor(stop.status, policy).Some?
  {
    Waiting(s) || (s.status.Skipped? && s.cause == StopFor(stop.status, policy).value.cause)
  }

  lemma AdvanceKeepsSerial(states: seq<EntryState>, policy: Policy, applied: set<nat>)
    requires Sound(states, policy)
    ensures Serial(Step(states, policy, Advance(applied)), policy)
  {
    var after, k := Step(states, policy, Advance(applied)), Front(states, policy);
    StepKeepsIds(states, policy, Advance(applied));
    forall i | 0 <= i < |states|
      ensures after[i] == AdvancedAt(states, policy, applied, i)
    {
      AdvanceAt(states, policy, applied, i);
    }
    hide Step;
    if Stopped(states, policy, k) {
      AdvanceBehindStop(states, policy, applied, after);
    } else {
      AdvanceFront(states, policy, applied, after);
    }
  }

  lemma AdvanceBehindStop(states: seq<EntryState>, policy: Policy, applied: set<nat>, after: seq<EntryState>)
    requires Serial(states, policy) && Stopped(states, policy, Front(states, policy)) && |after| == |states|
    requires forall i | 0 <= i < |states| :: after[i] == AdvancedAt(states, policy, applied, i)
    ensures Serial(after, policy)
  {
    var k := Front(states, policy);
    FrontIs(after, policy, k);
    forall i | k < i < |after|
      ensures WaitsOrSkipped(after[i], states[k], policy)
    {
      assert WaitsOrSkipped(states[i], states[k], policy);
    }
    assert after[k] == states[k];
  }

  lemma AdvanceFront(states: seq<EntryState>, policy: Policy, applied: set<nat>, after: seq<EntryState>)
    requires Serial(states, policy) && !Stopped(states, policy, Front(states, policy)) && |after| == |states|
    requires forall i | 0 <= i < |states| :: after[i] == AdvancedAt(states, policy, applied, i)
    ensures Serial(after, policy)
  {
    var k := Front(states, policy);
    assert forall i | 0 <= i < |states| && i != k :: after[i] == states[i];
    FrontIs(after, policy, k);
    hide Front;
  }

  lemma FinishKeepsSerial(states: seq<EntryState>, policy: Policy, status: EntryStatus)
    requires Sound(states, policy)
    ensures Serial(Step(states, policy, Finish(status)), policy)
  {
    var after, k := Step(states, policy, Finish(status)), Front(states, policy);
    if after != states {
      assert WaitingFrom(states, k + 1);
      FrontIs(after, policy, if Passed(after[k], policy) then k + 1 else k);
      hide Front;
    }
  }

  /**
   The lifecycle also lets a waiting entry fail or be canceled before it starts.
   That keeps the serial shape exactly when the entry is the next one to start:
   anywhere else the scheduler finds the states malformed from then on.
   */
  lemma EarlyEndingExactly(states: seq<EntryState>, policy: Policy, i: nat, status: EntryStatus)
    requires Sound(states, policy) && i < |states| && states[i].status.Pending?
    requires status.Failed? || status.Canceled?
    ensures EntryStatus.Pending.CanTransitionTo(status)
    ensures Serial(states[i := EntryState(states[i].entryId, status, NoCause)], policy) <==> i == Front(states, policy)
  {
    var after, k := states[i := EntryState(states[i].entryId, status, NoCause)], Front(states, policy);
    if i == k {
      FrontIs(after, policy, if Passed(after[i], policy) then i + 1 else i);
      assert WaitingFrom(after, i + 1);
    } else {
      assert k < i;
      FrontIs(after, policy, k);
      assert after[k] == states[k] && !Waiting(after[i]) && !after[i].status.Skipped?;
    }
    hide Front;
  }

  // ----- what holds of every sound state -----

  /** At most one entry runs. */
  lemma OneRunning(states: seq<EntryState>, policy: Policy, i: nat, j: nat)
    requires Sound(states, policy) && i < |states| && j < |states|
    requires states[i].status.Running? && states[j].status.Running?
    ensures i == j
  {
    var k := Front(states, policy);
    assert forall x | 0 <= x < |states| && states[x].status.Running? :: x == k;
  }

  /** The entries that ever began are the first ones of the plan. */
  lemma StartedIsPrefix(states: seq<EntryState>, policy: Policy) returns (m: nat)
    requires Sound(states, policy)
    ensures m <= |states|
    ensures forall i | 0 <= i < |states| :: i < m <==> !states[i].status.Pending? && !states[i].status.Skipped?
  {
    var k := Front(states, policy);
    m := if k < |states| && !states[k].status.Pending? then k + 1 else k;
  }

  function FinalOf(states: seq<EntryState>, policy: Policy): Option<InstanceStatus> {
    match Decide(states, policy)
    case None => None
    case Some(d) => d.final
  }

  /** Nothing is started any more, and nothing runs, once there is a final status. */
  lemma FinalMeansDone(states: seq<EntryState>, policy: Policy)
    requires Sound(states, policy) && FinalOf(states, policy).Some?
    ensures Decide(states, policy).value.next.None?
    ensures forall i | 0 <= i < |states| :: !states[i].status.Running?
    ensures forall t | t in Decide(states, policy).value.transitions :: t.to.Skipped?
  {
    var k := Front(states, policy);
    if Stopped(states, policy, k) { SkipsOnlySkip(states, k + 1, StopFor(states[k].status, policy).value.cause); }
  }

  lemma {:induction false} SkipsOnlySkip(states: seq<EntryState>, from: nat, cause: SkipCause)
    requires from <= |states|
    ensures forall t | t in Skips(states, from, cause) :: t.to.Skipped? && t.from.Pending? && t.cause == cause
    decreases |states| - from
  {
    if from < |states| {
      SkipsFrom(states, from, cause);
      SkipsOnlySkip(states, from + 1, cause);
    }
  }

  /** States that differ only in which entries behind the stop have been skipped already. */
  predicate SameButSkips(a: seq<EntryState>, b: seq<EntryState>) {
    && |a| == |b|
    && forall i | 0 <= i < |a| :: a[i] == b[i] || (Untouched(a[i]) && Untouched(b[i]))
  }

  predicate Untouched(s: EntryState) {
    s.status.Pending? || s.status.Skipped?
  }

  /** The final status does not depend on how many of the decided skips were carried out. */
  lemma FinalIgnoresSkips(a: seq<EntryState>, b: seq<EntryState>, policy: Policy)
    requires Sound(a, policy) && Sound(b, policy) && SameButSkips(a, b)
    ensures FinalOf(a, policy) == FinalOf(b, policy)
  {
    var k := Front(a, policy);
    if k < |a| && Untouched(a[k]) {
      assert !Passed(b[k], policy);
    }
    FrontIs(b, policy, k);
    if k == |a| {
      assert forall i | 0 <= i < |a| :: a[i] == b[i];
      assert a == b;
    }
  }

  /** Once reached, the final status never changes. */
  lemma FinalIsStable(states: seq<EntryState>, policy: Policy, a: Action)
    requires Sound(states, policy) && FinalOf(states, policy).Some?
    ensures FinalOf(Step(states, policy, a), policy) == FinalOf(states, policy)
  {
    var after := Step(states, policy, a);
    StepKeepsSound(states, policy, a);
    FinalMeansDone(states, policy);
    forall i | 0 <= i < |states|
      ensures after[i] == states[i] || (Untouched(after[i]) && Untouched(states[i]))
    {
      if a.Advance? { AdvanceAt(states, policy, a.applied, i); }
    }
    StepKeepsIds(states, policy, a);
    FinalIgnoresSkips(after, states, policy);
  }

  // ----- termination -----

  function Weight(s: EntryState): nat {
    if s.status.Pending? then 2 else if s.status.Running? then 1 else 0
  }

  function Work(states: seq<EntryState>): nat {
    if states == [] then 0 else Weight(states[0]) + Work(states[1..])
  }

  lemma {:induction false} WorkFalls(a: seq<EntryState>, b: seq<EntryState>)
    requires |a| == |b| && forall i | 0 <= i < |a| :: b[i] == a[i] || Weight(b[i]) < Weight(a[i])
    ensures Work(b) <= Work(a)
    ensures a != b ==> Work(b) < Work(a)
  {
    if a != [] {
      assert forall i | 0 <= i < |a[1..]| :: a[1..][i] == a[i + 1] && b[1..][i] == b[i + 1];
      WorkFalls(a[1..], b[1..]);
      assert a == [a[0]] + a[1..] && b == [b[0]] + b[1..];
    }
  }

  /** Every action that changes anything brings the end nearer. */
  lemma StepMakesProgress(states: seq<EntryState>, policy: Policy, a: Action)
    requires Sound(states, policy) && Step(states, policy, a) != states
    ensures Work(Step(states, policy, a)) < Work(states)
  {
    var after := Step(states, policy, a);
    StepKeepsIds(states, policy, a);
    forall i | 0 <= i < |states|
      ensures after[i] == states[i] || Weight(after[i]) < Weight(states[i])
    {
      if a.Advance? { AdvanceAt(states, policy, a.applied, i); }
    }
    WorkFalls(states, after);
  }

  /** An instance that has work left can always move: nothing gets stuck. */
  lemma SomethingCanMove(states: seq<EntryState>, policy: Policy) returns (a: Action)
    requires Sound(states, policy) && Work(states) > 0
    ensures Step(states, policy, a) != states
  {
    var k := Front(states, policy);
    var i := SomeoneUnfinished(states);
    if Stopped(states, policy, k) {
      a := Advance({i});
      AdvanceAt(states, policy, {i}, i);
    } else if states[k].status.Running? {
      a := Finish(EntryStatus.Succeeded);
      assert Step(states, policy, a)[k].status.Succeeded?;
    } else {
      a := Advance({k});
      AdvanceAt(states, policy, {k}, k);
    }
  }

  lemma {:induction false} SomeoneUnfinished(states: seq<EntryState>) returns (i: nat)
    requires Work(states) > 0
    ensures i < |states| && Weight(states[i]) > 0
  {
    if Weight(states[0]) > 0 {
      i := 0;
    } else {
      i := SomeoneUnfinished(states[1..]);
      i := i + 1;
    }
  }

  /** With no work left every entry is terminal and the instance has its final status. */
  lemma NoWorkMeansFinal(states: seq<EntryState>, policy: Policy)
    requires Sound(states, policy) && Work(states) == 0
    ensures FinalOf(states, policy).Some? && Decide(states, policy).value.transitions == []
  {
    var k := Front(states, policy);
    NoWorkNoWaiting(states);
    if Stopped(states, policy, k) { NoSkipsLeft(states, k + 1, StopFor(states[k].status, policy).value.cause); }
  }

  lemma {:induction false} NoWorkNoWaiting(states: seq<EntryState>)
    requires Work(states) == 0
    ensures forall i | 0 <= i < |states| :: states[i].status.Terminal()
  {
    if states != [] {
      NoWorkNoWaiting(states[1..]);
      assert forall i | 0 < i < |states| :: states[i] == states[1..][i - 1];
    }
  }

  lemma {:induction false} NoSkipsLeft(states: seq<EntryState>, from: nat, cause: SkipCause)
    requires from <= |states| && forall i | 0 <= i < |states| :: !states[i].status.Pending?
    ensures Skips(states, from, cause) == []
    decreases |states| - from
  {
    if from < |states| { NoSkipsLeft(states, from + 1, cause); }
  }

  // ----- runs -----

  function Fresh(ids: seq<string>): seq<EntryState> {
    seq(|ids|, i requires 0 <= i < |ids| => EntryState(ids[i], Pending, NoCause))
  }

  function Run(ids: seq<string>, policy: Policy, actions: seq<Action>): seq<EntryState> {
    if actions == [] then Fresh(ids)
    else Step(Run(ids, policy, actions[..|actions| - 1]), policy, actions[|actions| - 1])
  }

  /** Every run from a fresh instance stays sound, so the scheduler never refuses its states. */
  lemma {:induction false} RunIsSound(ids: seq<string>, policy: Policy, actions: seq<Action>)
    requires Distinct(ids)
    ensures Sound(Run(ids, policy, actions), policy)
    ensures Decide(Run(ids, policy, actions), policy).Some?
    ensures |Run(ids, policy, actions)| == |ids|
    ensures forall i | 0 <= i < |ids| :: Run(ids, policy, actions)[i].entryId == ids[i]
  {
    if actions == [] {
      if ids != [] { FrontIs(Fresh(ids), policy, 0); }
    } else {
      var before, a := Run(ids, policy, actions[..|actions| - 1]), actions[|actions| - 1];
      RunIsSound(ids, policy, actions[..|actions| - 1]);
      StepKeepsSound(before, policy, a);
      StepKeepsIds(before, policy, a);
      hide Step, Serial, DistinctIds;
    }
  }
}

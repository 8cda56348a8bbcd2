/**
 Serial scheduling of an instance's entries (application/scheduling/decision.go):
 which entry may start, which must be skipped, and when the instance is done.
 */
module Scheduling {
  import opened Wrappers
  import opened Statuses
  import opened Indexes

  datatype Policy = StopOnFailure | ContinueOnFailure

  datatype SkipCause = NoCause | PriorFailure | PriorCancellation | PriorAbort

  datatype InstanceStatus = InstanceSucceeded | InstanceFailed | InstanceCanceled | InstanceAborted

  datatype EntryState = EntryState(entryId: string, status: EntryStatus, cause: SkipCause)

  datatype Transition = Transition(entryId: string, from: EntryStatus, to: EntryStatus, cause: SkipCause)

  datatype Decision = Decision(next: Option<string>, transitions: seq<Transition>, final: Option<InstanceStatus>)

  datatype Stop = Stop(cause: SkipCause, final: InstanceStatus)

  /** `stopFor`: whether a terminal status ends the instance, and how. */
  function StopFor(status: EntryStatus, policy: Policy): Option<Stop> {
    match status
    case Failed => if policy.StopOnFailure? then Some(Stop(PriorFailure, InstanceFailed)) else None
    case Canceled => Some(Stop(PriorCancellation, InstanceCanceled))
    case Aborted => Some(Stop(PriorAbort, InstanceAborted))
    case _ => None
  }

  /** A finished entry that lets the next one run. */
  predicate Passed(s: EntryState, policy: Policy) {
    s.status.Terminal() && !s.status.Skipped? && StopFor(s.status, policy).None? && s.cause.NoCause?
  }

  predicate Waiting(s: EntryState) {
    s.status.Pending? && s.cause.NoCause?
  }

  /** How many entries at the front have finished and let the next one run. */
  function Front(states: seq<EntryState>, policy: Policy): (k: nat)
    ensures k <= |states|
    ensures forall i | 0 <= i < k :: Passed(states[i], policy)
    ensures k < |states| ==> !Passed(states[k], policy)
  {
    if states == [] || !Passed(states[0], policy) then 0
    else
      var k := Front(states[1..], policy) + 1;
      assert forall i | 0 < i < k :: states[i] == states[1..][i - 1];
      k
  }

  lemma FrontIs(states: seq<EntryState>, policy: Policy, k: nat)
    requires k <= |states| && (forall i | 0 <= i < k :: Passed(states[i], policy))
    requires k < |states| ==> !Passed(states[k], policy)
    ensures Front(states, policy) == k
  {
  }

  /** The entry that ended the instance, if one has. */
  predicate Stopped(states: seq<EntryState>, policy: Policy, k: nat) {
    k < |states| && StopFor(states[k].status, policy).Some? && states[k].cause.NoCause?
  }

  predicate WaitingFrom(states: seq<EntryState>, from: nat) {
    forall i | from <= i < |states| :: Waiting(states[i])
  }

  predicate SkippedFrom(states: seq<EntryState>, from: nat, cause: SkipCause) {
    forall i | from <= i < |states| :: Waiting(states[i]) || (states[i].status.Skipped? && states[i].cause == cause)
  }

  /**
   What serial execution can produce: finished entries, then either a stop with
   only waiting and rightly skipped entries behind it, or at most one running
   entry with only waiting ones behind it.
   */
  predicate Serial(states: seq<EntryState>, policy: Policy) {
    var k := Front(states, policy);
    || k == |states|
    || (Stopped(states, policy, k) && SkippedFrom(states, k + 1, StopFor(states[k].status, policy).value.cause))
    || (states[k].status.Running? && states[k].cause.NoCause? && WaitingFrom(states, k + 1))
    || WaitingFrom(states, k)
  }

  /** Whether one state fits behind what was seen so far. */
  datatype Seen = Seen(frontier: bool, stop: Option<(nat, Stop)>)

  /** One turn of the checking loop; nothing when the states cannot come from serial execution. */
  function Turn(seen: Seen, n: nat, s: EntryState, policy: Policy): Option<Seen> {
    if s.status.Skipped? && s.cause.NoCause? then None
    else if !s.status.Skipped? && !s.cause.NoCause? then None
    else if seen.stop.Some? then
      if s.status.Pending? then Some(seen)
      else if !s.status.Skipped? || s.cause != seen.stop.value.1.cause then None
      else Some(seen)
    else if s.status.Skipped? then None
    else if s.status.Pending? then Some(seen.(frontier := true))
    else if seen.frontier then None
    else if s.status.Running? then Some(seen.(frontier := true))
    else match StopFor(s.status, policy)
      case None => Some(seen)
      case Some(stop) => Some(seen.(stop := Some((n, stop))))
  }

  /** What the checking loop knows before position `n`; `k` entries have passed. */
  ghost predicate Scanned(states: seq<EntryState>, policy: Policy, n: nat, seen: Seen, k: nat) {
    && k <= n <= |states| && (forall i | 0 <= i < k :: Passed(states[i], policy))
    && match seen.stop
       case Some((index, stop)) =>
         && !seen.frontier && index == k && k < n
         && StopFor(states[k].status, policy) == Some(stop) && states[k].cause.NoCause?
         && forall i | k < i < n :: Waiting(states[i]) || (states[i].status.Skipped? && states[i].cause == stop.cause)
       case None =>
         if seen.frontier then
           && k < n && (forall i | k < i < n :: Waiting(states[i]))
           && states[k].cause.NoCause? && (states[k].status.Running? || states[k].status.Pending?)
         else k == n
  }

  lemma ScannedFront(states: seq<EntryState>, policy: Policy, n: nat, seen: Seen, k: nat)
    requires Scanned(states, policy, n, seen, k)
    ensures k < n ==> Front(states, policy) == k
  {
    if k < n { FrontIs(states, policy, k); }
  }

  function NextFront(k: nat, n: nat, seen: Seen): nat {
    if seen.stop.None? && !seen.frontier then n + 1 else k
  }

  lemma TurnKeeps(states: seq<EntryState>, policy: Policy, n: nat, seen: Seen, k: nat)
    requires Scanned(states, policy, n, seen, k) && n < |states| && Turn(seen, n, states[n], policy).Some?
    ensures var after := Turn(seen, n, states[n], policy).value;
            Scanned(states, policy, n + 1, after, NextFront(k, n, after))
  {
  }

  lemma TurnRefuses(states: seq<EntryState>, policy: Policy, n: nat, seen: Seen, k: nat)
    requires Scanned(states, policy, n, seen, k) && n < |states| && Turn(seen, n, states[n], policy).None?
    ensures !Serial(states, policy)
  {
    ScannedFront(states, policy, n, seen, k);
    if k == n { FrontIs(states, policy, n); }
  }

  lemma ScannedAll(states: seq<EntryState>, policy: Policy, seen: Seen, k: nat)
    requires Scanned(states, policy, |states|, seen, k)
    ensures Serial(states, policy) && Front(states, policy) == k
    ensures seen.stop == if Stopped(states, policy, k) then Some((k, StopFor(states[k].status, policy).value)) else None
  {
    FrontIs(states, policy, k);
  }

  /** The checking loop of `validateSerialShape`: it accepts exactly the serial states, and finds the stop. */
  method ValidateSerialShape(states: seq<EntryState>, policy: Policy) returns (r: Option<Option<(nat, Stop)>>)
    ensures r.Some? <==> Serial(states, policy)
    ensures r.Some? ==> r.value == StopOf(states, policy)
  {
    var seen := Seen(false, None);
    ghost var k := 0;
    for n := 0 to |states|
      invariant 0 <= k && Scanned(states, policy, n, seen, k)
    {
      var after := Turn(seen, n, states[n], policy);
      if after.None? {
        TurnRefuses(states, policy, n, seen, k);
        return None;
      }
      TurnKeeps(states, policy, n, seen, k);
      seen := after.value;
      k := NextFront(k, n, seen);
    }
    ScannedAll(states, policy, seen, k);
    return Some(seen.stop);
  }

  /** Where and how the instance was stopped, if it was. */
  function StopOf(states: seq<EntryState>, policy: Policy): Option<(nat, Stop)> {
    var k := Front(states, policy);
    if Stopped(states, policy, k) then Some((k, StopFor(states[k].status, policy).value)) else None
  }

  // ----- the decision -----

  /** Skipping every entry that still waits at or behind `from`. */
  function Skips(states: seq<EntryState>, from: nat, cause: SkipCause): seq<Transition>
    requires from <= |states|
    decreases |states| - from
  {
    if from == |states| then []
    else if states[from].status.Pending? then
      [Transition(states[from].entryId, Pending, EntryStatus.Skipped, cause)] + Skips(states, from + 1, cause)
    else Skips(states, from + 1, cause)
  }

  predicate AnyFailed(states: seq<EntryState>) {
    exists i :: 0 <= i < |states| && states[i].status.Failed?
  }

  /** What to do next, from the entries in plan order. */
  function Decide(states: seq<EntryState>, policy: Policy): Option<Decision> {
    if !Serial(states, policy) then None else
    var k := Front(states, policy);
    match StopOf(states, policy)
    case Some((_, stop)) => Some(Decision(None, Skips(states, k + 1, stop.cause), Some(stop.final)))
    case None =>
      if k == |states| then
        Some(Decision(None, [], Some(if AnyFailed(states) then InstanceFailed else InstanceSucceeded)))
      else if states[k].status.Running? then Some(Decision(None, [], None))
      else Some(Decision(Some(states[k].entryId), [Transition(states[k].entryId, Pending, Running, NoCause)], None))
  }

  const STATE_KEY: EntryState -> string := (s: EntryState) => s.entryId

  /** The states are one per entry of the plan. */
  ghost predicate Covers(ids: seq<string>, states: seq<EntryState>) {
    && |states| == |ids| && DistinctKeys(states, STATE_KEY) && Distinct(ids)
    && forall i | 0 <= i < |ids| :: exists j :: 0 <= j < |states| && states[j].entryId == ids[i]
  }

  /** The same states, in plan order. */
  ghost predicate Arranged(ids: seq<string>, states: seq<EntryState>, ordered: seq<EntryState>) {
    |ordered| == |ids| && forall i | 0 <= i < |ids| :: ordered[i] in states && ordered[i].entryId == ids[i]
  }

  lemma ArrangedUnique(ids: seq<string>, states: seq<EntryState>, a: seq<EntryState>, b: seq<EntryState>)
    requires DistinctKeys(states, STATE_KEY) && Arranged(ids, states, a) && Arranged(ids, states, b)
    ensures a == b
  {
    forall i | 0 <= i < |ids|
      ensures a[i] == b[i]
    {
      var x :| 0 <= x < |states| && states[x] == a[i];
      var y :| 0 <= y < |states| && states[y] == b[i];
      assert STATE_KEY(states[x]) == STATE_KEY(states[y]);
    }
  }

  function Taken(ids: seq<string>, i: nat): set<string>
    requires i <= |ids|
  {
    set j | 0 <= j < i :: ids[j]
  }

  /** The first `i` entries have been lined up and their states taken out of the table. */
  ghost predicate Arranging(ids: seq<string>, states: seq<EntryState>, i: nat, byId: map<string, EntryState>,
    ordered: seq<EntryState>)
  {
    && i <= |ids| && Arranged(ids[..i], states, ordered)
    && byId == IndexBy(states, STATE_KEY) - Taken(ids, i) && |byId.Keys| == |states| - i
  }

  lemma ArrangingStart(ids: seq<string>, states: seq<EntryState>)
    requires DistinctKeys(states, STATE_KEY)
    ensures Arranging(ids, states, 0, IndexBy(states, STATE_KEY), [])
  {
    IndexSize(states, STATE_KEY);
    assert Taken(ids, 0) == {};
  }

  lemma ArrangingFinds(ids: seq<string>, states: seq<EntryState>, i: nat, byId: map<string, EntryState>,
    ordered: seq<EntryState>)
    requires Arranging(ids, states, i, byId, ordered) && i < |ids| && Distinct(ids)
    ensures ids[i] in byId <==> exists j :: 0 <= j < |states| && states[j].entryId == ids[i]
    ensures ids[i] in byId ==> byId[ids[i]] in states && byId[ids[i]].entryId == ids[i]
  {
    IndexHolds(states, STATE_KEY, ids[i]);
    assert ids[i] !in Taken(ids, i);
    assert forall j | 0 <= j < |states| :: STATE_KEY(states[j]) == states[j].entryId;
    hide Arranged;
  }

  lemma ArrangedNext(ids: seq<string>, states: seq<EntryState>, i: nat, ordered: seq<EntryState>, s: EntryState)
    requires i < |ids| && Arranged(ids[..i], states, ordered) && s in states && s.entryId == ids[i]
    ensures Arranged(ids[..i + 1], states, ordered + [s])
  {
    forall j | 0 <= j < i + 1
      ensures (ordered + [s])[j] in states && (ordered + [s])[j].entryId == ids[..i + 1][j]
    {
      if j < i { assert ids[..i][j] == ids[j]; }
    }
  }

  lemma ArrangingNext(ids: seq<string>, states: seq<EntryState>, i: nat, byId: map<string, EntryState>,
    ordered: seq<EntryState>)
    requires Arranging(ids, states, i, byId, ordered) && i < |ids| && ids[i] in byId && Distinct(ids)
    ensures Arranging(ids, states, i + 1, byId - {ids[i]}, ordered + [byId[ids[i]]])
  {
    ArrangingFinds(ids, states, i, byId, ordered);
    ArrangedNext(ids, states, i, ordered, byId[ids[i]]);
    var index := IndexBy(states, STATE_KEY);
    assert Taken(ids, i + 1) == Taken(ids, i) + {ids[i]};
    TakeOne(index, Taken(ids, i), ids[i]);
    hide Arranged, Distinct, Taken, IndexBy, Indexes.DistinctKeys;
  }

  lemma TakeOne<V>(index: map<string, V>, taken: set<string>, id: string)
    requires id in index - taken
    ensures (index - taken) - {id} == index - (taken + {id})
    ensures |((index - taken) - {id}).Keys| == |(index - taken).Keys| - 1
  {
    assert ((index - taken) - {id}).Keys == (index - taken).Keys - {id};
  }

  lemma ArrangingEnd(ids: seq<string>, states: seq<EntryState>, byId: map<string, EntryState>, ordered: seq<EntryState>)
    requires Arranging(ids, states, |ids|, byId, ordered) && |states| == |ids| && Distinct(ids)
    requires DistinctKeys(states, STATE_KEY)
    ensures Arranged(ids, states, ordered) && Covers(ids, states) && byId == map[]
  {
    assert ids[..|ids|] == ids;
    assert byId.Keys == {};
    forall i | 0 <= i < |ids|
      ensures exists j :: 0 <= j < |states| && states[j].entryId == ids[i]
    {
      var j :| 0 <= j < |states| && states[j] == ordered[i];
      assert states[j].entryId == ids[i];
    }
  }

  /** Lines the states up with the plan, taking each out of the table as it is used. */
  method Arrange(ids: seq<string>, states: seq<EntryState>) returns (r: Option<seq<EntryState>>)
    requires Distinct(ids)
    ensures r.Some? <==> Covers(ids, states)
    ensures r.Some? ==> Arranged(ids, states, r.value)
  {
    if |states| != |ids| { return None; }
    var index := BuildIndex(states, STATE_KEY);
    if index.None? { return None; }
    ArrangingStart(ids, states);
    hide Arranging, Distinct, DistinctKeys, Arranged;
    var byId, ordered := index.value, [];
    for i := 0 to |ids|
      invariant Arranging(ids, states, i, byId, ordered)
    {
      ArrangingFinds(ids, states, i, byId, ordered);
      if ids[i] !in byId { return None; }
      ArrangingNext(ids, states, i, byId, ordered);
      ordered := ordered + [byId[ids[i]]];
      byId := byId - {ids[i]};
    }
    ArrangingEnd(ids, states, byId, ordered);
    if byId != map[] { return None; }
    return Some(ordered);
  }

  lemma {:induction false} SkipsFrom(states: seq<EntryState>, from: nat, cause: SkipCause)
    requires from < |states|
    ensures Skips(states, from, cause)
         == (if states[from].status.Pending?
             then [Transition(states[from].entryId, Pending, EntryStatus.Skipped, cause)] else [])
          + Skips(states, from + 1, cause)
  {
  }

  /** `stopAfter`: every entry that still waits behind the stop is to be skipped, for its cause. */
  method StopAfter(states: seq<EntryState>, index: nat, stop: Stop) returns (r: Option<Decision>)
    requires index < |states|
    ensures r == Some(Decision(None, Skips(states, index + 1, stop.cause), Some(stop.final)))
  {
    var transitions: seq<Transition> := [];
    for i := index + 1 to |states|
      invariant transitions + Skips(states, i, stop.cause) == Skips(states, index + 1, stop.cause)
    {
      SkipsFrom(states, i, stop.cause);
      if states[i].status.Pending? {
        var transition := Transition(states[i].entryId, Pending, EntryStatus.Skipped, stop.cause);
        if !transition.from.CanTransitionTo(transition.to) { return None; }
        transitions := transitions + [transition];
      }
    }
    assert transitions + [] == transitions;
    return Some(Decision(None, transitions, Some(stop.final)));
  }

  /** `DecideAdvance`: the decision about the states in plan order, whatever order they came in. */
  method DecideAdvance(ids: seq<string>, states: seq<EntryState>, policy: Policy) returns (r: Option<Decision>)
    requires Distinct(ids)
    ensures r.Some? ==> Covers(ids, states)
    ensures !Covers(ids, states) ==> r.None?
    ensures forall ordered | Covers(ids, states) && Arranged(ids, states, ordered) :: r == Decide(ordered, policy)
  {
    var arranged := Arrange(ids, states);
    if arranged.None? { return None; }
    var ordered := arranged.value;
    forall other | Arranged(ids, states, other)
      ensures other == ordered
    {
      ArrangedUnique(ids, states, other, ordered);
    }
    hide Arranged, Covers, Serial, Skips;
    var shape := ValidateSerialShape(ordered, policy);
    if shape.None? { return None; }
    if shape.value.Some? {
      r := StopAfter(ordered, shape.value.value.0, shape.value.value.1);
      return;
    }
    r := Walk(ordered, policy);
  }

  /** The loop over the ordered states of an instance that has not been stopped. */
  method Walk(states: seq<EntryState>, policy: Policy) returns (r: Option<Decision>)
    requires Serial(states, policy) && StopOf(states, policy).None?
    ensures r == Decide(states, policy)
  {
    var failed, k := false, Front(states, policy);
    for i := 0 to |states|
      invariant i <= k && failed == AnyFailed(states[..i])
    {
      assert states[..i + 1] == states[..i] + [states[i]];
      match states[i].status {
        case Running => return Some(Decision(None, [], None));
        case Pending =>
          var transition := Transition(states[i].entryId, Pending, Running, NoCause);
          if !transition.from.CanTransitionTo(transition.to) { return None; }
          return Some(Decision(Some(states[i].entryId), [transition], None));
        case Failed => failed := true;
        case _ =>
      }
      FailedSoFar(states, i);
    }
    assert states[..|states|] == states;
    return Some(Decision(None, [], Some(if failed then InstanceFailed else InstanceSucceeded)));
  }

  lemma FailedSoFar(states: seq<EntryState>, i: nat)
    requires i < |states|
    ensures AnyFailed(states[..i + 1]) <==> AnyFailed(states[..i]) || states[i].status.Failed?
  {
    var longer, shorter := states[..i + 1], states[..i];
    if AnyFailed(shorter) {
      var j :| 0 <= j < i && shorter[j].status.Failed?;
      assert longer[j].status.Failed?;
    }
    if states[i].status.Failed? { assert longer[i].status.Failed?; }
    if AnyFailed(longer) {
      var j :| 0 <= j <= i && longer[j].status.Failed?;
      if j < i { assert shorter[j].status.Failed?; }
    }
  }
}

/**
 Ending an entry and asking it to stop (application/execution/entry_completion.go,
 abort_request.go and their transactions): pure decisions, request digests, the
 store contract and the services that drive it.
 */
module Completion {
  import opened Wrappers
  import T = Text
  import opened Digests
  import opened Statuses
  import Codec

  const TWO_63: int := 0x8000_0000_0000_0000

  /** A signed 64-bit counter. */
  type Count = n: int | -TWO_63 <= n < TWO_63

  /** The largest counter that still has a successor a later request can observe. */
  const MAX_REVISION: int := TWO_63 - 2

  datatype Intent = NoIntent | Cancel | Abort
  {
    function Wire(): (s: string)
      ensures |s| < 20
    {
      match this
      case NoIntent => "NONE"
      case Cancel => "CANCEL"
      case Abort => "ABORT"
    }
  }

  datatype ExecutionOutcome = RunSucceeded | RunFailed | RunCanceled | NotStarted | Interrupted
  {
    function Wire(): (s: string)
      ensures |s| < 20
    {
      match this
      case RunSucceeded => "SUCCEEDED"
      case RunFailed => "FAILED"
      case RunCanceled => "CANCELED"
      case NotStarted => "NOT_STARTED"
      case Interrupted => "INTERRUPTED"
    }
  }

  datatype RecordingOutcome = RecordingDisabled | RecordingSucceeded | RecordingStartFailed | RecordingStopFailed
                            | RecordingUnobserved
  {
    function Wire(): (s: string)
      ensures |s| < 20
    {
      match this
      case RecordingDisabled => "DISABLED"
      case RecordingSucceeded => "SUCCEEDED"
      case RecordingStartFailed => "START_FAILED"
      case RecordingStopFailed => "STOP_FAILED"
      case RecordingUnobserved => "UNOBSERVED"
    }
  }

  datatype TimelineOutcome = TimelineDisabled | TimelineComplete | TimelineStartFailed | TimelineFinishFailed
                           | TimelineUnobserved
  {
    function Wire(): (s: string)
      ensures |s| < 20
    {
      match this
      case TimelineDisabled => "DISABLED"
      case TimelineComplete => "COMPLETE"
      case TimelineStartFailed => "START_FAILED"
      case TimelineFinishFailed => "FINISH_FAILED"
      case TimelineUnobserved => "UNOBSERVED"
    }
  }

  predicate Stated(s: string) {
    s == "" || !T.Blank(s)
  }

  datatype EngineOutcome = EngineOutcome(execution: ExecutionOutcome, recording: RecordingOutcome,
    timeline: TimelineOutcome, failureCode: Text)
  {
    predicate Valid() {
      Stated(failureCode)
    }
  }

  /** What was observed about an entry just before deciding about it. */
  datatype Observed = Observed(status: EntryStatus, intent: Intent, revision: Count, generation: Count)
  {
    predicate Valid() {
      0 <= revision && 0 <= generation
    }
  }

  datatype Fence = Fence(instanceId: Text, claimToken: Text)
  {
    predicate Valid() {
      Codec.ValidIdentity(instanceId) && claimToken != ""
    }
  }

  // ----- decisions -----

  datatype Refusal = StateInvalid | OutcomeInvalid | RequestInvalid | NotRunning | AlreadyAborting | RevisionExhausted
                   | CommandInvalid | DigestMismatch | FenceStale | IdentityConflict | ContractViolation | Unavailable

  datatype Cause = Completed | NeverStarted | WasInterrupted

  datatype CompletionDecision = CompletionDecision(status: EntryStatus, cause: Cause,
    current: (Intent, Count, Count), next: (Intent, Count, Count))

  datatype AbortDecision = AbortDecision(current: (Intent, Count, Count), next: (Intent, Count, Count))

  function CauseOf(executed: ExecutionOutcome): Cause {
    match executed
    case NotStarted => NeverStarted
    case Interrupted => WasInterrupted
    case _ => Completed
  }

  /** A finished run outweighs any intent; otherwise the intent names the terminal status. */
  function TerminalStatus(intent: Intent, executed: ExecutionOutcome): EntryStatus {
    if executed.RunSucceeded? then Succeeded
    else match intent
      case Cancel => Canceled
      case Abort => Aborted
      case NoIntent => Failed
  }

  predicate CarriesOut(status: EntryStatus) {
    status.Canceled? || status.Aborted?
  }

  /** `DecideEntryCompletion`. */
  function DecideCompletion(s: Observed, outcome: EngineOutcome): Result<CompletionDecision, Refusal> {
    if !s.Valid() then Err(StateInvalid)
    else if !outcome.Valid() then Err(OutcomeInvalid)
    else if !s.status.Running? then Err(NotRunning)
    else if s.revision >= MAX_REVISION then Err(RevisionExhausted)
    else
      var status := TerminalStatus(s.intent, outcome.execution);
      if CarriesOut(status) && s.generation >= MAX_REVISION then Err(RevisionExhausted)
      else
        var generation: Count := if CarriesOut(status) then s.generation + 1 else s.generation;
        Ok(CompletionDecision(status, CauseOf(outcome.execution),
          (s.intent, s.revision, s.generation), (s.intent, s.revision + 1, generation)))
  }

  /** `DecideAbortRequest`: an abort is recorded, nothing is ended and no generation is spent. */
  function DecideAbort(s: Observed, commandId: string): Result<AbortDecision, Refusal> {
    if !s.Valid() then Err(StateInvalid)
    else if !Normalized(commandId) then Err(RequestInvalid)
    else if !s.status.Running? then Err(NotRunning)
    else if s.intent.Abort? then Err(AlreadyAborting)
    else if s.revision >= MAX_REVISION then Err(RevisionExhausted)
    else Ok(AbortDecision((s.intent, s.revision, s.generation), (Abort, s.revision + 1, s.generation)))
  }

  predicate Normalized(s: string) {
    s != "" && !T.Blank(s) && !T.IsSpace(s[0]) && !T.IsSpace(s[|s| - 1])
  }

  // ----- commands and their digests -----

  datatype CompletionCommand = CompletionCommand(entryId: Text, fence: Fence, state: Observed,
    outcome: EngineOutcome, abortPendingCommandId: Text)
  {
    predicate Valid() {
      Codec.ValidIdentity(entryId) && fence.Valid() && state.Valid() && outcome.Valid() && Stated(abortPendingCommandId)
    }
  }

  datatype AbortCommand = AbortCommand(entryId: Text, fence: Fence, state: Observed, abortPendingCommandId: Text)
  {
    predicate Valid() {
      Codec.ValidIdentity(entryId) && fence.Valid() && state.Valid() && Normalized(abortPendingCommandId)
    }
  }

  const COMPLETE_TAG: Text := "complete-entry-request-v1"
  const ABORT_TAG: Text := "request-abort-v1"

  /** The fields both requests start with. */
  function HeadTokens(tag: Text, entryId: Text, fence: Fence, state: Observed): seq<Token>
    requires state.Valid()
  {
    [Str(tag), Str(entryId), Str(fence.instanceId), Str(fence.claimToken),
     Str(state.status.Wire()), Str(state.intent.Wire()), Num(state.revision), Num(state.generation)]
  }

  function OutcomeTokens(outcome: EngineOutcome): seq<Token> {
    [Str(outcome.execution.Wire()), Str(outcome.recording.Wire()), Str(outcome.timeline.Wire()),
     Str(outcome.failureCode)]
  }

  function CompletionTokens(c: CompletionCommand): seq<Token>
    requires c.Valid()
  {
    HeadTokens(COMPLETE_TAG, c.entryId, c.fence, c.state) + OutcomeTokens(c.outcome) + [Str(c.abortPendingCommandId)]
  }

  function AbortTokens(c: AbortCommand): seq<Token>
    requires c.Valid()
  {
    HeadTokens(ABORT_TAG, c.entryId, c.fence, c.state) + [Str(c.abortPendingCommandId)]
  }

  /** The identity of a completion request; the hash is taken to keep different streams apart. */
  function CompletionDigest(c: CompletionCommand): string
    requires c.Valid()
  {
    Stream(CompletionTokens(c))
  }

  function AbortDigest(c: AbortCommand): string
    requires c.Valid()
  {
    Stream(AbortTokens(c))
  }

  lemma StatusWireInjective(a: EntryStatus, b: EntryStatus)
    requires a.Wire() == b.Wire()
    ensures a == b
  {
  }

  lemma IntentWireInjective(a: Intent, b: Intent)
    requires a.Wire() == b.Wire()
    ensures a == b
  {
  }

  lemma OutcomeWireInjective(a: EngineOutcome, b: EngineOutcome)
    requires a.execution.Wire() == b.execution.Wire() && a.failureCode == b.failureCode
    requires a.recording.Wire() == b.recording.Wire() && a.timeline.Wire() == b.timeline.Wire()
    ensures a == b
  {
  }

  /** Equal completion digests mean equal commands. */
  lemma CompletionDigestInjective(a: CompletionCommand, b: CompletionCommand)
    requires a.Valid() && b.Valid() && CompletionDigest(a) == CompletionDigest(b)
    ensures a == b
  {
    var x, y := CompletionTokens(a), CompletionTokens(b);
    StreamInjective(x, y);
    assert x[1] == y[1] && x[2] == y[2] && x[3] == y[3] && x[4] == y[4] && x[5] == y[5] && x[6] == y[6];
    assert x[7] == y[7] && x[8] == y[8] && x[9] == y[9] && x[10] == y[10] && x[11] == y[11] && x[12] == y[12];
    hide Stream;
    StatusWireInjective(a.state.status, b.state.status);
    IntentWireInjective(a.state.intent, b.state.intent);
    OutcomeWireInjective(a.outcome, b.outcome);
  }

  lemma AbortDigestInjective(a: AbortCommand, b: AbortCommand)
    requires a.Valid() && b.Valid() && AbortDigest(a) == AbortDigest(b)
    ensures a == b
  {
    var x, y := AbortTokens(a), AbortTokens(b);
    StreamInjective(x, y);
    assert x[1] == y[1] && x[2] == y[2] && x[3] == y[3] && x[4] == y[4] && x[5] == y[5] && x[6] == y[6];
    assert x[7] == y[7] && x[8] == y[8];
    hide Stream;
    StatusWireInjective(a.state.status, b.state.status);
    IntentWireInjective(a.state.intent, b.state.intent);
  }

  /** A completion is never taken for an abort request. */
  lemma DigestsSeparate(a: CompletionCommand, b: AbortCommand)
    requires a.Valid() && b.Valid()
    ensures CompletionDigest(a) != AbortDigest(b)
  {
    assert COMPLETE_TAG[0] != ABORT_TAG[0];
    TagsSeparate(CompletionTokens(a), AbortTokens(b));
  }

  method WriteHead(h: Writer, tag: Text, entryId: Text, fence: Fence, state: Observed)
    requires h.Valid() && h.tokens == [] && state.Valid()
    modifies h
    ensures h.Valid() && h.tokens == HeadTokens(tag, entryId, fence, state)
  {
    assert 0 <= state.revision < TWO_64 && 0 <= state.generation < TWO_64;
    hide *;
    h.WriteString(tag);
    h.WriteString(entryId);
    h.WriteString(fence.instanceId);
    h.WriteString(fence.claimToken);
    h.WriteString(state.status.Wire());
    h.WriteString(state.intent.Wire());
    h.WriteUint64(state.revision);
    h.WriteUint64(state.generation);
    HeadTokensAre(tag, entryId, fence, state, h.tokens);
  }

  lemma HeadTokensAre(tag: Text, entryId: Text, fence: Fence, state: Observed, tokens: seq<Token>)
    requires state.Valid()
    requires tokens == [] + [Str(tag)] + [Str(entryId)] + [Str(fence.instanceId)] + [Str(fence.claimToken)]
                     + [Str(state.status.Wire())] + [Str(state.intent.Wire())] + [Num(state.revision)]
                     + [Num(state.generation)]
    ensures tokens == HeadTokens(tag, entryId, fence, state)
  {
  }

  method WriteOutcome(h: Writer, outcome: EngineOutcome)
    requires h.Valid()
    modifies h
    ensures h.Valid() && h.tokens == old(h.tokens) + OutcomeTokens(outcome)
  {
    ghost var before := h.tokens;
    hide Stream, ExecutionOutcome.Wire, RecordingOutcome.Wire, TimelineOutcome.Wire;
    h.WriteString(outcome.execution.Wire());
    h.WriteString(outcome.recording.Wire());
    h.WriteString(outcome.timeline.Wire());
    h.WriteString(outcome.failureCode);
    assert h.tokens == before + OutcomeTokens(outcome);
  }

  /** Feeding the fields one by one writes exactly the request's stream. */
  method WriteCompletionDigest(c: CompletionCommand) returns (r: Result<string, Refusal>)
    ensures r == if c.Valid() then Ok(CompletionDigest(c)) else Err(CommandInvalid)
  {
    if !c.Valid() { return Err(CommandInvalid); }
    hide Stream;
    var h := new Writer();
    WriteHead(h, COMPLETE_TAG, c.entryId, c.fence, c.state);
    WriteOutcome(h, c.outcome);
    h.WriteString(c.abortPendingCommandId);
    assert h.tokens == CompletionTokens(c);
    return Ok(h.written);
  }

  method WriteAbortDigest(c: AbortCommand) returns (r: Result<string, Refusal>)
    ensures r == if c.Valid() then Ok(AbortDigest(c)) else Err(CommandInvalid)
  {
    if !c.Valid() { return Err(CommandInvalid); }
    hide Stream;
    var h := new Writer();
    WriteHead(h, ABORT_TAG, c.entryId, c.fence, c.state);
    h.WriteString(c.abortPendingCommandId);
    assert h.tokens == AbortTokens(c);
    return Ok(h.written);
  }
}

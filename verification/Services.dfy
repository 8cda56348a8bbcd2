/**
 The completion and abort services (application/execution) over a store object,
 and every interleaving of the workers that call them.
 */
module Services {
  import opened Wrappers
  import opened Statuses
  import opened Completion
  import opened Protocol

  /** A store that keeps the port contract. */
  class TerminalStore {
    var rows: map<string, Row>
    var completions: map<Receipt, CompletionDecision>
    var aborts: map<Receipt, AbortDecision>
    var ledger: seq<Write>

    constructor (rows: map<string, Row>)
      ensures State() == Store(rows, map[], map[], [])
    {
      this.rows, completions, aborts, ledger := rows, map[], map[], [];
    }

    ghost function State(): Store
      reads this
    {
      Store(rows, completions, aborts, ledger)
    }

    method LookupEntryCompletion(entryId: string, digest: string) returns (r: Option<Reply<CompletionDecision>>)
      ensures var key := Receipt(entryId, digest);
              r == if key in completions then Some(Reply(Replayed, entryId, digest, completions[key])) else None
    {
      var key := Receipt(entryId, digest);
      if key in completions { return Some(Reply(Replayed, entryId, digest, completions[key])); }
      return None;
    }

    /** Applies one completion atomically; the intent is checked before anything is touched. */
    method CompleteEntry(intent: CompletionIntent) returns (r: Result<Reply<CompletionDecision>, Refusal>)
      modifies this
      ensures (State(), r) == ApplyCompletion(old(State()), intent)
    {
      var checked := CheckCompletion(intent);
      if checked.Err? { return Err(checked.error); }
      var key := Receipt(intent.entryId, intent.digest);
      if key in completions { return Ok(Reply(Replayed, intent.entryId, intent.digest, completions[key])); }
      var c, d := intent.command, intent.decision;
      if c.entryId !in rows || rows[c.entryId].fence != c.fence { return Err(FenceStale); }
      if rows[c.entryId].observed != c.state { return Err(IdentityConflict); }
      rows := rows[c.entryId := Row(Observed(d.status, d.next.0, d.next.1, d.next.2), c.fence)];
      ledger := ledger + [Ended(c, d)];
      completions := completions[key := d];
      return Ok(Reply(Applied, intent.entryId, intent.digest, d));
    }

    method LookupAbortRequest(entryId: string, digest: string) returns (r: Option<Reply<AbortDecision>>)
      ensures var key := Receipt(entryId, digest);
              r == if key in aborts then Some(Reply(Replayed, entryId, digest, aborts[key])) else None
    {
      var key := Receipt(entryId, digest);
      if key in aborts { return Some(Reply(Replayed, entryId, digest, aborts[key])); }
      return None;
    }

    /** Records one pending abort atomically; the entry's status is left alone. */
    method RequestAbort(intent: AbortIntent) returns (r: Result<Reply<AbortDecision>, Refusal>)
      modifies this
      ensures (State(), r) == ApplyAbort(old(State()), intent)
    {
      var checked := CheckAbort(intent);
      if checked.Err? { return Err(checked.error); }
      var key := Receipt(intent.entryId, intent.digest);
      if key in aborts { return Ok(Reply(Replayed, intent.entryId, intent.digest, aborts[key])); }
      var c, d := intent.command, intent.decision;
      if c.entryId !in rows || rows[c.entryId].fence != c.fence { return Err(FenceStale); }
      if rows[c.entryId].observed != c.state { return Err(IdentityConflict); }
      rows := rows[c.entryId := Row(Observed(c.state.status, d.next.0, d.next.1, d.next.2), c.fence)];
      ledger := ledger + [Asked(c, d)];
      aborts := aborts[key := d];
      return Ok(Reply(Applied, intent.entryId, intent.digest, d));
    }
  }

  function CompletionIntentOf(c: CompletionCommand, d: CompletionDecision): CompletionIntent
    requires c.Valid()
  {
    CompletionIntent(c.entryId, CompletionDigest(c), c, d)
  }

  function AbortIntentOf(c: AbortCommand, d: AbortDecision): AbortIntent
    requires c.Valid()
  {
    AbortIntent(c.entryId, AbortDigest(c), c, d)
  }

  /** What a completion request must come to: refused, replayed or applied, and never twice. */
  function CompleteCall(s: Store, c: CompletionCommand): (Store, Result<Reply<CompletionDecision>, Refusal>) {
    if !c.Valid() then (s, Err(CommandInvalid))
    else match DecideCompletion(c.state, c.outcome)
      case Err(e) => (s, Err(e))
      case Ok(d) => ApplyCompletion(s, CompletionIntentOf(c, d))
  }

  function AbortCall(s: Store, c: AbortCommand): (Store, Result<Reply<AbortDecision>, Refusal>) {
    if !c.Valid() then (s, Err(CommandInvalid))
    else match DecideAbort(c.state, c.abortPendingCommandId)
      case Err(e) => (s, Err(e))
      case Ok(d) => ApplyAbort(s, AbortIntentOf(c, d))
  }

  class EntryCompletionService {
    const transaction: TerminalStore?

    constructor (transaction: TerminalStore?)
      ensures this.transaction == transaction
    {
      this.transaction := transaction;
    }

    /** Ends one entry, exactly once; on a consistent store no outcome is ever a contract violation. */
    method Complete(command: CompletionCommand, ghost start: map<string, Row>)
      returns (r: Result<Reply<CompletionDecision>, Refusal>)
      requires transaction != null ==> Consistent(start, transaction.State())
      modifies if transaction == null then {} else {transaction}
      ensures transaction == null ==> r == Err(Unavailable)
      ensures transaction != null ==>
        (transaction.State(), r) == CompleteCall(old(transaction.State()), command)
      ensures transaction != null ==> Consistent(start, transaction.State())
    {
      if transaction == null { return Err(Unavailable); }
      var digest := WriteCompletionDigest(command);
      if digest.Err? { return Err(digest.error); }
      var decision := DecideCompletion(command.state, command.outcome);
      if decision.Err? { return Err(decision.error); }
      var intent := CompletionIntent(command.entryId, digest.value, command, decision.value);
      CompletionConsistent(start, transaction.State(), intent);
      if Receipt(command.entryId, digest.value) in transaction.completions {
        ReceiptIsDecision(start, transaction.State(), command);
      }
      hide Consistent, DecideCompletion, CompletionDigest, CompletionCommand.Valid;
      var recorded := transaction.LookupEntryCompletion(command.entryId, digest.value);
      if recorded.Some? {
        if recorded.value.status != Replayed { return Err(ContractViolation); }
        if !Faithful(recorded.value, command.entryId, digest.value, decision.value) { return Err(ContractViolation); }
        return Ok(recorded.value);
      }
      var applied := transaction.CompleteEntry(intent);
      if applied.Err? { return Err(applied.error); }
      if !Faithful(applied.value, command.entryId, digest.value, decision.value) { return Err(ContractViolation); }
      return Ok(applied.value);
    }
  }

  /** `validateCompleteEntryOutcome` and its abort twin: the reply is about this very request. */
  predicate Faithful<D(==)>(reply: Reply<D>, entryId: string, digest: string, decision: D) {
    reply.entryId == entryId && reply.digest == digest && reply.decision == decision
  }

  class AbortRequestService {
    const transaction: TerminalStore?

    constructor (transaction: TerminalStore?)
      ensures this.transaction == transaction
    {
      this.transaction := transaction;
    }

    /** Records one pending abort, exactly once. */
    method Request(command: AbortCommand, ghost start: map<string, Row>)
      returns (r: Result<Reply<AbortDecision>, Refusal>)
      requires transaction != null ==> Consistent(start, transaction.State())
      modifies if transaction == null then {} else {transaction}
      ensures transaction == null ==> r == Err(Unavailable)
      ensures transaction != null ==> (transaction.State(), r) == AbortCall(old(transaction.State()), command)
      ensures transaction != null ==> Consistent(start, transaction.State())
    {
      if transaction == null { return Err(Unavailable); }
      var digest := WriteAbortDigest(command);
      if digest.Err? { return Err(digest.error); }
      var decision := DecideAbort(command.state, command.abortPendingCommandId);
      if decision.Err? { return Err(decision.error); }
      var intent := AbortIntent(command.entryId, digest.value, command, decision.value);
      AbortConsistent(start, transaction.State(), intent);
      if Receipt(command.entryId, digest.value) in transaction.aborts {
        AbortReceiptIsDecision(start, transaction.State(), command);
      }
      hide Consistent, DecideAbort, AbortDigest, AbortCommand.Valid;
      var recorded := transaction.LookupAbortRequest(command.entryId, digest.value);
      if recorded.Some? {
        if recorded.value.status != Replayed { return Err(ContractViolation); }
        if !Faithful(recorded.value, command.entryId, digest.value, decision.value) { return Err(ContractViolation); }
        return Ok(recorded.value);
      }
      var applied := transaction.RequestAbort(intent);
      if applied.Err? { return Err(applied.error); }
      if !Faithful(applied.value, command.entryId, digest.value, decision.value) { return Err(ContractViolation); }
      return Ok(applied.value);
    }
  }

  /** Repeating a request that succeeded replays it: the same decision, and a store left as it is. */
  lemma RetryReplays(s: Store, c: CompletionCommand)
    requires CompleteCall(s, c).1.Ok?
    ensures var (t, r) := CompleteCall(s, c);
            CompleteCall(t, c) == (t, Ok(r.value.(status := Replayed)))
  {
    hide DecideCompletion, CompletionDigest;
  }

  // ----- interleaved workers -----

  /** A worker between its lookup and its apply. */
  datatype Pending = CompletionPending(completion: CompletionIntent) | AbortPending(request: AbortIntent)

  datatype Answer =
    | CompletionAnswer(completion: CompletionCommand, ended: Reply<CompletionDecision>)
    | AbortAnswer(request: AbortCommand, asked: Reply<AbortDecision>)

  datatype System = System(store: Store, pending: map<nat, Pending>, answers: seq<Answer>)

  /** One atomic action of one worker; any worker may act at any time, and crash at any time. */
  datatype Action =
    | BeginCompletion(worker: nat, completion: CompletionCommand)
    | BeginAbort(worker: nat, request: AbortCommand)
    | Apply(worker: nat, heard: bool)
    | Crash(worker: nat)

  /** Digest, decide, look up: a recorded request is answered, a new one is left pending. */
  function BegunCompletion(s: System, worker: nat, c: CompletionCommand): System {
    if !c.Valid() || DecideCompletion(c.state, c.outcome).Err? then s else
    var d, key := DecideCompletion(c.state, c.outcome).value, Receipt(c.entryId, CompletionDigest(c));
    if key !in s.store.completions then
      s.(pending := s.pending[worker := CompletionPending(CompletionIntentOf(c, d))])
    else if s.store.completions[key] != d then s
    else s.(answers := s.answers + [CompletionAnswer(c, Reply(Replayed, key.entryId, key.digest, d))])
  }

  function BegunAbort(s: System, worker: nat, c: AbortCommand): System {
    if !c.Valid() || DecideAbort(c.state, c.abortPendingCommandId).Err? then s else
    var d, key := DecideAbort(c.state, c.abortPendingCommandId).value, Receipt(c.entryId, AbortDigest(c));
    if key !in s.store.aborts then s.(pending := s.pending[worker := AbortPending(AbortIntentOf(c, d))])
    else if s.store.aborts[key] != d then s
    else s.(answers := s.answers + [AbortAnswer(c, Reply(Replayed, key.entryId, key.digest, d))])
  }

  /** The store's transaction; the answer may be lost on the way back. */
  function AppliedBy(s: System, worker: nat, heard: bool): System
    requires worker in s.pending
  {
    var rest := s.pending - {worker};
    match s.pending[worker]
    case CompletionPending(i) =>
      var (store, r) := ApplyCompletion(s.store, i);
      System(store, rest,
        if heard && r.Ok? then s.answers + [CompletionAnswer(i.command, r.value)] else s.answers)
    case AbortPending(i) =>
      var (store, r) := ApplyAbort(s.store, i);
      System(store, rest, if heard && r.Ok? then s.answers + [AbortAnswer(i.command, r.value)] else s.answers)
  }

  function Next(s: System, a: Action): System {
    match a
    case BeginCompletion(worker, c) => BegunCompletion(s, worker, c)
    case BeginAbort(worker, c) => BegunAbort(s, worker, c)
    case Apply(worker, heard) => if worker in s.pending then AppliedBy(s, worker, heard) else s
    case Crash(worker) => s.(pending := s.pending - {worker})
  }

  function Run(start: map<string, Row>, actions: seq<Action>): System {
    if actions == [] then System(Store(start, map[], map[], []), map[], [])
    else Next(Run(start, actions[..|actions| - 1]), actions[|actions| - 1])
  }

  /** The worker is told that it ended the entry or, when `asking`, that it asked for the abort of it. */
  predicate ToldApplied(a: Answer, e: string, asking: bool) {
    match a
    case CompletionAnswer(c, reply) => !asking && c.entryId == e && reply.status.Applied?
    case AbortAnswer(c, reply) => asking && c.entryId == e && reply.status.Applied?
  }

  /** How many workers were told so. */
  function AppliedAnswers(answers: seq<Answer>, e: string, asking: bool): nat {
    if answers == [] then 0 else
    AppliedAnswers(answers[..|answers| - 1], e, asking) + (if ToldApplied(answers[|answers| - 1], e, asking) then 1 else 0)
  }

  /** How often that was written. */
  function Writings(ledger: seq<Write>, e: string, asking: bool): nat {
    if asking then Askings(ledger, e) else Endings(ledger, e)
  }

  /** Every answer stands for a write of the ledger with its decision. */
  ghost predicate Answered(s: System, a: Answer) {
    match a
    case CompletionAnswer(c, reply) =>
      c.Valid() && EndedIn(s.store.ledger, Receipt(c.entryId, CompletionDigest(c)), reply.decision)
    case AbortAnswer(c, reply) =>
      c.Valid() && AskedIn(s.store.ledger, Receipt(c.entryId, AbortDigest(c)), reply.decision)
  }

  ghost predicate Good(start: map<string, Row>, s: System) {
    && Consistent(start, s.store)
    && (forall a | a in s.answers :: Answered(s, a))
    && (forall e, asking :: AppliedAnswers(s.answers, e, asking) <= Writings(s.store.ledger, e, asking))
  }

  lemma AnswerAppend(answers: seq<Answer>, a: Answer, e: string, asking: bool)
    ensures AppliedAnswers(answers + [a], e, asking)
         == AppliedAnswers(answers, e, asking) + (if ToldApplied(a, e, asking) then 1 else 0)
  {
    assert (answers + [a])[..|answers|] == answers;
  }

  /** A larger ledger still backs every earlier answer. */
  lemma AnsweredLater(s: System, t: System, a: Answer)
    requires Answered(s, a)
    requires t.store.ledger == s.store.ledger
          || exists w :: t.store.ledger == s.store.ledger + [w]
    ensures Answered(t, a)
  {
    if t.store.ledger != s.store.ledger {
      var w :| t.store.ledger == s.store.ledger + [w];
      LedgerGrows(s.store.ledger, w);
    }
    hide EndedIn, AskedIn, CompletionDigest, AbortDigest;
  }

  /** What one completion transaction does to the ledger, and what it may answer. */
  lemma CompletionEffect(start: map<string, Row>, s: Store, i: CompletionIntent)
    requires Consistent(start, s)
    ensures var (t, r) := ApplyCompletion(s, i);
            && (t.ledger == s.ledger || t.ledger == s.ledger + [Ended(i.command, i.decision)])
            && (r.Ok? ==> i.command.Valid())
            && (r.Ok? ==> EndedIn(t.ledger, Receipt(i.command.entryId, CompletionDigest(i.command)), r.value.decision))
            && (r.Ok? && r.value.status.Applied? ==> t.ledger == s.ledger + [Ended(i.command, i.decision)])
  {
    var (t, r) := ApplyCompletion(s, i);
    var w, key := Ended(i.command, i.decision), Receipt(i.entryId, i.digest);
    if r.Ok? && r.value.status.Applied? {
      assert w in t.ledger && Ends(w, key, i.decision);
    }
    hide Consistent, CompletionDigest, Ends, DecideCompletion;
  }

  lemma AbortEffect(start: map<string, Row>, s: Store, i: AbortIntent)
    requires Consistent(start, s)
    ensures var (t, r) := ApplyAbort(s, i);
            && (t.ledger == s.ledger || t.ledger == s.ledger + [Asked(i.command, i.decision)])
            && (r.Ok? ==> i.command.Valid())
            && (r.Ok? ==> AskedIn(t.ledger, Receipt(i.command.entryId, AbortDigest(i.command)), r.value.decision))
            && (r.Ok? && r.value.status.Applied? ==> t.ledger == s.ledger + [Asked(i.command, i.decision)])
  {
    var (t, r) := ApplyAbort(s, i);
    var w, key := Asked(i.command, i.decision), Receipt(i.entryId, i.digest);
    if r.Ok? && r.value.status.Applied? {
      assert w in t.ledger && Asks(w, key, i.decision);
    }
    hide Consistent, AbortDigest, Asks, DecideAbort;
  }

  lemma WritingsGrow(ledger: seq<Write>, w: Write, e: string, asking: bool)
    ensures Writings(ledger + [w], e, asking)
         == Writings(ledger, e, asking) + (if w.EntryId() == e && w.Asked? == asking then 1 else 0)
  {
    assert (ledger + [w])[..|ledger|] == ledger;
  }

  /** One transaction: its answer, if it is heard, is backed by what it wrote. */
  lemma TransactionGood(start: map<string, Row>, s: System, t: System, w: Write, answer: Answer)
    requires Good(start, s) && Consistent(start, t.store)
    requires t.store.ledger == s.store.ledger || t.store.ledger == s.store.ledger + [w]
    requires t.answers == s.answers || (t.answers == s.answers + [answer] && Answered(t, answer))
    requires forall e, asking | t.answers != s.answers && ToldApplied(answer, e, asking) ::
               t.store.ledger == s.store.ledger + [w] && w.EntryId() == e && w.Asked? == asking
    ensures Good(start, t)
  {
    hide Consistent, Answered, ToldApplied, Writings, AppliedAnswers;
    forall a | a in t.answers
      ensures Answered(t, a)
    {
      if a in s.answers { AnsweredLater(s, t, a); }
    }
    forall e, asking
      ensures AppliedAnswers(t.answers, e, asking) <= Writings(t.store.ledger, e, asking)
    {
      WritingsGrow(s.store.ledger, w, e, asking);
      AnswerAppend(s.answers, answer, e, asking);
    }
  }

  lemma CompletionApplyGood(start: map<string, Row>, s: System, worker: nat, heard: bool)
    requires Good(start, s) && worker in s.pending && s.pending[worker].CompletionPending?
    ensures Good(start, AppliedBy(s, worker, heard))
  {
    var i, t := s.pending[worker].completion, AppliedBy(s, worker, heard);
    var r := ApplyCompletion(s.store, i).1;
    CompletionConsistent(start, s.store, i);
    CompletionEffect(start, s.store, i);
    var w := Ended(i.command, i.decision);
    hide Good, Consistent, ApplyCompletion, CompletionDigest, EndedIn, AskedIn;
    var answer := if r.Ok? then CompletionAnswer(i.command, r.value)
                  else CompletionAnswer(i.command, Reply(Replayed, "", "", i.decision));
    TransactionGood(start, s, t, w, answer);
  }

  lemma AbortApplyGood(start: map<string, Row>, s: System, worker: nat, heard: bool)
    requires Good(start, s) && worker in s.pending && s.pending[worker].AbortPending?
    ensures Good(start, AppliedBy(s, worker, heard))
  {
    var i, t := s.pending[worker].request, AppliedBy(s, worker, heard);
    var r := ApplyAbort(s.store, i).1;
    AbortConsistent(start, s.store, i);
    AbortEffect(start, s.store, i);
    var w := Asked(i.command, i.decision);
    hide Good, Consistent, ApplyAbort, AbortDigest, EndedIn, AskedIn;
    var answer := if r.Ok? then AbortAnswer(i.command, r.value)
                  else AbortAnswer(i.command, Reply(Replayed, "", "", i.decision));
    TransactionGood(start, s, t, w, answer);
  }

  lemma PendingGood(start: map<string, Row>, s: System, pending: map<nat, Pending>)
    requires Good(start, s)
    ensures Good(start, s.(pending := pending))
  {
    hide Consistent, AppliedAnswers, Writings;
    forall a | a in s.answers
      ensures Answered(s.(pending := pending), a)
    {
      assert Answered(s, a);
    }
  }

  /** An answer that only repeats a receipt changes nothing that matters. */
  lemma RepeatGood(start: map<string, Row>, s: System, repeat: Answer)
    requires Good(start, s) && Answered(s, repeat) && forall e, asking :: !ToldApplied(repeat, e, asking)
    ensures Good(start, s.(answers := s.answers + [repeat]))
  {
    hide Consistent, Writings, ToldApplied;
    var t := s.(answers := s.answers + [repeat]);
    forall a | a in t.answers
      ensures Answered(t, a)
    {
      assert Answered(s, a);
    }
    forall e, asking
      ensures AppliedAnswers(t.answers, e, asking) <= Writings(t.store.ledger, e, asking)
    {
      AnswerAppend(s.answers, repeat, e, asking);
    }
  }

  lemma BegunGood(start: map<string, Row>, s: System, worker: nat, c: CompletionCommand)
    requires Good(start, s)
    ensures Good(start, BegunCompletion(s, worker, c))
  {
    if c.Valid() && DecideCompletion(c.state, c.outcome).Ok? {
      var d, key := DecideCompletion(c.state, c.outcome).value, Receipt(c.entryId, CompletionDigest(c));
      PendingGood(start, s, s.pending[worker := CompletionPending(CompletionIntentOf(c, d))]);
      if key in s.store.completions && s.store.completions[key] == d {
        var a := CompletionAnswer(c, Reply(Replayed, key.entryId, key.digest, d));
        assert Answered(s, a);
        RepeatGood(start, s, a);
      }
    }
    hide Good, Answered, CompletionDigest, DecideCompletion;
  }

  lemma BegunAbortGood(start: map<string, Row>, s: System, worker: nat, c: AbortCommand)
    requires Good(start, s)
    ensures Good(start, BegunAbort(s, worker, c))
  {
    if c.Valid() && DecideAbort(c.state, c.abortPendingCommandId).Ok? {
      var d, key := DecideAbort(c.state, c.abortPendingCommandId).value, Receipt(c.entryId, AbortDigest(c));
      PendingGood(start, s, s.pending[worker := AbortPending(AbortIntentOf(c, d))]);
      if key in s.store.aborts && s.store.aborts[key] == d {
        var a := AbortAnswer(c, Reply(Replayed, key.entryId, key.digest, d));
        assert Answered(s, a);
        RepeatGood(start, s, a);
      }
    }
    hide Good, Answered, AbortDigest, DecideAbort;
  }

  lemma {:induction false} RunGood(start: map<string, Row>, actions: seq<Action>)
    ensures Good(start, Run(start, actions))
  {
    if actions != [] {
      var before, a := Run(start, actions[..|actions| - 1]), actions[|actions| - 1];
      RunGood(start, actions[..|actions| - 1]);
      match a {
        case BeginCompletion(worker, c) => BegunGood(start, before, worker, c);
        case BeginAbort(worker, c) => BegunAbortGood(start, before, worker, c);
        case Apply(worker, heard) =>
          if worker in before.pending {
            match before.pending[worker] {
              case CompletionPending(_) => CompletionApplyGood(start, before, worker, heard);
              case AbortPending(_) => AbortApplyGood(start, before, worker, heard);
            }
          }
        case Crash(worker) => PendingGood(start, before, before.pending - {worker});
      }
      hide Consistent, Answered, BegunCompletion, BegunAbort, AppliedBy, AppliedAnswers, Writings;
    } else {
      NothingYet(start);
    }
  }

  lemma NothingYet(start: map<string, Row>)
    ensures Good(start, System(Store(start, map[], map[], []), map[], []))
  {
    assert forall e | e in start :: start[e] == Row(start[e].observed, start[e].fence);
  }

  /**
   Exactly-once completion. Whatever the workers do, an entry that was RUNNING
   obeys its law; at most one worker is told it ended the entry and at most one
   that it asked for its abort; every answer about ending it names the status the
   entry really ended with, which is the one its own run and the intent call for, and every answer about an abort stands for one that was
   written with just that decision.
   */
  lemma ExactlyOnce(start: map<string, Row>, actions: seq<Action>, e: string)
    requires e in start && start[e].observed.status.Running?
    ensures var s := Run(start, actions);
            && e in s.store.rows
            && EntryLaw(start[e].observed, s.store.rows[e].observed,
                        Endings(s.store.ledger, e), Askings(s.store.ledger, e), EndedBy(s.store.ledger, e))
            && AppliedAnswers(s.answers, e, false) <= 1 && AppliedAnswers(s.answers, e, true) <= 1
            && (forall a | a in s.answers && a.CompletionAnswer? && a.completion.entryId == e ::
                  && a.ended.decision.status == s.store.rows[e].observed.status
                  && EndsAs(a.ended.decision.status, a.completion.outcome.execution, s.store.rows[e].observed.intent))
            && (forall a | a in s.answers && a.AbortAnswer? && a.request.entryId == e ::
                  && a.request.Valid() && s.store.rows[e].observed.intent.Abort?
                  && AskedIn(s.store.ledger, Receipt(e, AbortDigest(a.request)), a.asked.decision))
  {
    var s := Run(start, actions);
    RunGood(start, actions);
    RunningLaw(start, s.store.ledger, e);
    assert AppliedAnswers(s.answers, e, false) <= Writings(s.store.ledger, e, false);
    assert AppliedAnswers(s.answers, e, true) <= Writings(s.store.ledger, e, true);
    forall a | a in s.answers && a.CompletionAnswer? && a.completion.entryId == e
      ensures a.ended.decision.status == s.store.rows[e].observed.status
      ensures EndsAs(a.ended.decision.status, a.completion.outcome.execution, s.store.rows[e].observed.intent)
    {
      AnswerIsFinal(start, s, a);
    }
    forall a | a in s.answers && a.AbortAnswer? && a.request.entryId == e
      ensures a.request.Valid() && AskedIn(s.store.ledger, Receipt(e, AbortDigest(a.request)), a.asked.decision)
      ensures Askings(s.store.ledger, e) > 0
    {
      assert Answered(s, a);
      AskedIsCounted(s.store.ledger, Receipt(e, AbortDigest(a.request)), a.asked.decision);
    }
    hide Answered, Lawful, Run, AskedIn, EndsAs;
  }

  /** Whatever the workers do, every transaction ever committed is in order with respect to the row it met. */
  lemma RunsAreInOrder(start: map<string, Row>, actions: seq<Action>, i: nat)
    requires i < |Run(start, actions).store.ledger|
    ensures var ledger := Run(start, actions).store.ledger; var e := ledger[i].EntryId();
            e in start && InOrder(ledger[i], Row(RowAfter(start[e].observed, ledger[..i], e), start[e].fence))
  {
    RunGood(start, actions);
    LedgerInOrder(start, Run(start, actions).store.ledger, i);
    hide InOrder, Lawful, Run, Answered, RowAfter;
  }

  lemma AskedIsCounted(ledger: seq<Write>, key: Receipt, d: AbortDecision)
    requires AskedIn(ledger, key, d)
    ensures Askings(ledger, key.entryId) > 0
  {
    var w :| w in ledger && Asks(w, key, d);
    AskingIsCounted(ledger, w);
    hide AbortDigest;
  }

  lemma {:induction false} AskingIsCounted(ledger: seq<Write>, w: Write)
    requires w in ledger && w.Asked?
    ensures Askings(ledger, w.EntryId()) > 0
  {
    if w in ledger[..|ledger| - 1] { AskingIsCounted(ledger[..|ledger| - 1], w); }
  }

  lemma AnswerIsFinal(start: map<string, Row>, s: System, a: Answer)
    requires Good(start, s) && a in s.answers && a.CompletionAnswer?
    ensures a.completion.entryId in s.store.rows
    ensures a.ended.decision.status == s.store.rows[a.completion.entryId].observed.status
    ensures EndsAs(a.ended.decision.status, a.completion.outcome.execution,
                   s.store.rows[a.completion.entryId].observed.intent)
  {
    assert Answered(s, a);
    var key := Receipt(a.completion.entryId, CompletionDigest(a.completion));
    var w :| w in s.store.ledger && Ends(w, key, a.ended.decision);
    EndingIsFinal(start, s.store.ledger, w);
    hide CompletionDigest, Lawful, RowAfter, CompletionCommand.Valid, DecideCompletion, EndsAs, EndedIn;
    assert w.EntryId() == a.completion.entryId;
    CompletionDigestInjective(w.completion, a.completion);
    DecisionEndsAs(a.completion, w.ending);
  }

  lemma DecisionEndsAs(c: CompletionCommand, d: CompletionDecision)
    requires DecideCompletion(c.state, c.outcome) == Ok(d)
    ensures EndsAs(d.status, c.outcome.execution, d.next.0)
  {
  }
}

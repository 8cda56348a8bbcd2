/**
 The completion and abort protocol over a store that keeps the port contract:
 one transaction at a time, a compare-and-swap on the observed row, and a receipt
 per request. Workers interleave, crash, lose answers and retry.
 */
module Protocol {
  import opened Wrappers
  import opened Digests
  import opened Statuses
  import opened Completion

  datatype Row = Row(observed: Observed, fence: Fence)

  datatype Receipt = Receipt(entryId: string, digest: string)

  /** One committed transaction. */
  datatype Write =
    | Ended(completion: CompletionCommand, ending: CompletionDecision)
    | Asked(request: AbortCommand, asking: AbortDecision)
  {
    function EntryId(): string {
      match this
      case Ended(c, _) => c.entryId
      case Asked(c, _) => c.entryId
    }

    function Seen(): Observed {
      match this
      case Ended(c, _) => c.state
      case Asked(c, _) => c.state
    }

    function HeldBy(): Fence {
      match this
      case Ended(c, _) => c.fence
      case Asked(c, _) => c.fence
    }

    /** The row the transaction leaves behind. */
    function Written(): Observed {
      match this
      case Ended(_, d) => Observed(d.status, d.next.0, d.next.1, d.next.2)
      case Asked(c, d) => Observed(c.state.status, d.next.0, d.next.1, d.next.2)
    }
  }

  datatype Store = Store(rows: map<string, Row>, completions: map<Receipt, CompletionDecision>,
    aborts: map<Receipt, AbortDecision>, ledger: seq<Write>)

  datatype ReplyStatus = Applied | Replayed

  datatype Reply<D> = Reply(status: ReplyStatus, entryId: string, digest: string, decision: D)

  datatype CompletionIntent = CompletionIntent(entryId: string, digest: string, command: CompletionCommand,
    decision: CompletionDecision)

  datatype AbortIntent = AbortIntent(entryId: string, digest: string, command: AbortCommand, decision: AbortDecision)

  /** `ValidateCompleteEntryIntentDigest`. */
  function CheckCompletion(i: CompletionIntent): Result<(), Refusal> {
    if !i.command.Valid() then Err(CommandInvalid)
    else if i.digest != CompletionDigest(i.command) || i.entryId != i.command.entryId then Err(DigestMismatch)
    else match DecideCompletion(i.command.state, i.command.outcome)
      case Err(e) => Err(e)
      case Ok(d) => if i.decision != d then Err(DigestMismatch) else Ok(())
  }

  function CheckAbort(i: AbortIntent): Result<(), Refusal> {
    if !i.command.Valid() then Err(CommandInvalid)
    else if i.digest != AbortDigest(i.command) || i.entryId != i.command.entryId then Err(DigestMismatch)
    else match DecideAbort(i.command.state, i.command.abortPendingCommandId)
      case Err(e) => Err(e)
      case Ok(d) => if i.decision != d then Err(DigestMismatch) else Ok(())
  }

  /** The row still is what the command saw, and the worker still holds it. */
  function Holds(s: Store, entryId: string, fence: Fence, seen: Observed): Result<(), Refusal> {
    if entryId !in s.rows || s.rows[entryId].fence != fence then Err(FenceStale)
    else if s.rows[entryId].observed != seen then Err(IdentityConflict)
    else Ok(())
  }

  function Commit(s: Store, w: Write): Store
    requires w.EntryId() in s.rows
  {
    s.(rows := s.rows[w.EntryId() := s.rows[w.EntryId()].(observed := w.Written())], ledger := s.ledger + [w])
  }

  /** `CompleteEntry` of a store that keeps its contract: one atomic transaction. */
  function ApplyCompletion(s: Store, i: CompletionIntent): (Store, Result<Reply<CompletionDecision>, Refusal>) {
    var key := Receipt(i.entryId, i.digest);
    if CheckCompletion(i).Err? then (s, Err(CheckCompletion(i).error))
    else if key in s.completions then (s, Ok(Reply(Replayed, i.entryId, i.digest, s.completions[key])))
    else match Holds(s, i.entryId, i.command.fence, i.command.state)
      case Err(e) => (s, Err(e))
      case Ok(_) =>
        (Commit(s, Ended(i.command, i.decision)).(completions := s.completions[key := i.decision]),
         Ok(Reply(Applied, i.entryId, i.digest, i.decision)))
  }

  function ApplyAbort(s: Store, i: AbortIntent): (Store, Result<Reply<AbortDecision>, Refusal>) {
    var key := Receipt(i.entryId, i.digest);
    if CheckAbort(i).Err? then (s, Err(CheckAbort(i).error))
    else if key in s.aborts then (s, Ok(Reply(Replayed, i.entryId, i.digest, s.aborts[key])))
    else match Holds(s, i.entryId, i.command.fence, i.command.state)
      case Err(e) => (s, Err(e))
      case Ok(_) =>
        (Commit(s, Asked(i.command, i.decision)).(aborts := s.aborts[key := i.decision]),
         Ok(Reply(Applied, i.entryId, i.digest, i.decision)))
  }

  // ----- what every store reached keeps -----

  /** A write follows from the row it found: it decided about just that row. */
  predicate Follows(w: Write, row: Observed) {
    w.Seen() == row &&
    match w
    case Ended(c, d) => c.Valid() && DecideCompletion(c.state, c.outcome) == Ok(d)
    case Asked(c, d) => c.Valid() && DecideAbort(c.state, c.abortPendingCommandId) == Ok(d)
  }

  /** The row of an entry after the writes of a ledger. */
  function RowAfter(row: Observed, ledger: seq<Write>, entryId: string): Observed {
    if ledger == [] then row else
    var before, w := RowAfter(row, ledger[..|ledger| - 1], entryId), ledger[|ledger| - 1];
    if w.EntryId() == entryId then w.Written() else before
  }

  ghost predicate Lawful(start: map<string, Row>, ledger: seq<Write>) {
    ledger == [] ||
    (var init, w := ledger[..|ledger| - 1], ledger[|ledger| - 1];
     && Lawful(start, init) && w.EntryId() in start && w.HeldBy() == start[w.EntryId()].fence
     && Follows(w, RowAfter(start[w.EntryId()].observed, init, w.EntryId())))
  }

  function KeyOf(w: Write): Receipt
    requires (w.Ended? ==> w.completion.Valid()) && (w.Asked? ==> w.request.Valid())
  {
    match w
    case Ended(c, _) => Receipt(c.entryId, CompletionDigest(c))
    case Asked(c, _) => Receipt(c.entryId, AbortDigest(c))
  }

  ghost predicate Ends(w: Write, key: Receipt, d: CompletionDecision) {
    w.Ended? && w.completion.Valid() && KeyOf(w) == key && w.ending == d
  }

  ghost predicate Asks(w: Write, key: Receipt, d: AbortDecision) {
    w.Asked? && w.request.Valid() && KeyOf(w) == key && w.asking == d
  }

  ghost predicate EndedIn(ledger: seq<Write>, key: Receipt, d: CompletionDecision) {
    exists w :: w in ledger && Ends(w, key, d)
  }

  ghost predicate AskedIn(ledger: seq<Write>, key: Receipt, d: AbortDecision) {
    exists w :: w in ledger && Asks(w, key, d)
  }

  /** Every receipt stands for a write of the ledger. */
  ghost predicate Receipted(s: Store) {
    && (forall key | key in s.completions :: EndedIn(s.ledger, key, s.completions[key]))
    && (forall key | key in s.aborts :: AskedIn(s.ledger, key, s.aborts[key]))
  }

  lemma LedgerGrows(ledger: seq<Write>, w: Write)
    ensures forall key, d | EndedIn(ledger, key, d) :: EndedIn(ledger + [w], key, d)
    ensures forall key, d | AskedIn(ledger, key, d) :: AskedIn(ledger + [w], key, d)
  {
    hide Ends, Asks;
    forall key, d | EndedIn(ledger, key, d)
      ensures EndedIn(ledger + [w], key, d)
    {
      var x :| x in ledger && Ends(x, key, d);
      assert x in ledger + [w];
    }
    forall key, d | AskedIn(ledger, key, d)
      ensures AskedIn(ledger + [w], key, d)
    {
      var x :| x in ledger && Asks(x, key, d);
      assert x in ledger + [w];
    }
  }

  /** The store is what its ledger makes of the rows it started from. */
  ghost predicate Consistent(start: map<string, Row>, s: Store) {
    && s.rows.Keys == start.Keys
    && (forall e | e in start :: s.rows[e] == Row(RowAfter(start[e].observed, s.ledger, e), start[e].fence))
    && Lawful(start, s.ledger) && Receipted(s)
  }

  lemma CommitConsistent(start: map<string, Row>, s: Store, w: Write)
    requires Consistent(start, s) && w.EntryId() in s.rows && Follows(w, s.rows[w.EntryId()].observed)
    requires w.HeldBy() == s.rows[w.EntryId()].fence
    ensures Commit(s, w).rows.Keys == start.Keys && Lawful(start, Commit(s, w).ledger)
    ensures forall e | e in start :: Commit(s, w).rows[e] == Row(RowAfter(start[e].observed, Commit(s, w).ledger, e), start[e].fence)
  {
    var t := Commit(s, w);
    assert t.ledger[..|t.ledger| - 1] == s.ledger;
    forall e | e in start
      ensures t.rows[e] == Row(RowAfter(start[e].observed, t.ledger, e), start[e].fence)
    {
      assert s.rows[e] == Row(RowAfter(start[e].observed, s.ledger, e), start[e].fence);
    }
    hide Follows;
  }

  /** What a completion that changes the store has found, and what it leaves behind. */
  lemma CompletionCommits(s: Store, i: CompletionIntent)
    ensures var w, key := Ended(i.command, i.decision), Receipt(i.entryId, i.digest);
            ApplyCompletion(s, i).0 == s ||
            (&& w.EntryId() in s.rows && Follows(w, s.rows[w.EntryId()].observed)
             && w.HeldBy() == s.rows[w.EntryId()].fence && Ends(w, key, i.decision)
             && ApplyCompletion(s, i).0 == Commit(s, w).(completions := s.completions[key := i.decision]))
  {
    hide CompletionDigest, CompletionCommand.Valid, DecideCompletion, Commit;
  }

  lemma AbortCommits(s: Store, i: AbortIntent)
    ensures var w, key := Asked(i.command, i.decision), Receipt(i.entryId, i.digest);
            ApplyAbort(s, i).0 == s ||
            (&& w.EntryId() in s.rows && Follows(w, s.rows[w.EntryId()].observed)
             && w.HeldBy() == s.rows[w.EntryId()].fence && Asks(w, key, i.decision)
             && ApplyAbort(s, i).0 == Commit(s, w).(aborts := s.aborts[key := i.decision]))
  {
    hide AbortDigest, AbortCommand.Valid, DecideAbort, Commit;
  }

  lemma CompletionConsistent(start: map<string, Row>, s: Store, i: CompletionIntent)
    requires Consistent(start, s)
    ensures Consistent(start, ApplyCompletion(s, i).0)
  {
    var w, t, key := Ended(i.command, i.decision), ApplyCompletion(s, i).0, Receipt(i.entryId, i.digest);
    hide Lawful, RowAfter, Follows, Ends, ApplyCompletion, AskedIn;
    CompletionCommits(s, i);
    if t != s {
      CommitConsistent(start, s, w);
      LedgerGrows(s.ledger, w);
      assert w in t.ledger;
    }
  }

  lemma AbortConsistent(start: map<string, Row>, s: Store, i: AbortIntent)
    requires Consistent(start, s)
    ensures Consistent(start, ApplyAbort(s, i).0)
  {
    var w, t, key := Asked(i.command, i.decision), ApplyAbort(s, i).0, Receipt(i.entryId, i.digest);
    hide Lawful, RowAfter, Follows, Asks, ApplyAbort, EndedIn;
    AbortCommits(s, i);
    if t != s {
      CommitConsistent(start, s, w);
      LedgerGrows(s.ledger, w);
      assert w in t.ledger;
    }
  }

  // ----- the law of an entry -----

  function Endings(ledger: seq<Write>, e: string): nat {
    if ledger == [] then 0 else
    var w := ledger[|ledger| - 1];
    Endings(ledger[..|ledger| - 1], e) + (if w.Ended? && w.EntryId() == e then 1 else 0)
  }

  function Askings(ledger: seq<Write>, e: string): nat {
    if ledger == [] then 0 else
    var w := ledger[|ledger| - 1];
    Askings(ledger[..|ledger| - 1], e) + (if w.Asked? && w.EntryId() == e then 1 else 0)
  }

  /** The run that the last ending of an entry reported. */
  function EndedBy(ledger: seq<Write>, e: string): Option<ExecutionOutcome> {
    if ledger == [] then None else
    var w := ledger[|ledger| - 1];
    if w.Ended? && w.EntryId() == e then Some(w.completion.outcome.execution) else EndedBy(ledger[..|ledger| - 1], e)
  }

  /** What a run and the intent standing against it make of an entry. */
  predicate EndsAs(status: EntryStatus, execution: ExecutionOutcome, intent: Intent) {
    && (status.Succeeded? <==> execution.RunSucceeded?)
    && (status.Failed? <==> !execution.RunSucceeded? && intent.NoIntent?)
    && (status.Canceled? <==> !execution.RunSucceeded? && intent.Cancel?)
    && (status.Aborted? <==> !execution.RunSucceeded? && intent.Abort?)
  }

  /**
   An entry that started RUNNING is ended at most once and asked to abort at most
   once; its revision counts exactly those writes; its generation has grown by one
   exactly when it ended CANCELED or ABORTED; its intent is ABORT once asked. When
   it has ended it ended SUCCEEDED exactly if its run succeeded, and otherwise
   FAILED, CANCELED or ABORTED as its intent says.
   */
  ghost predicate EntryLaw(first: Observed, last: Observed, endings: nat, askings: nat, run: Option<ExecutionOutcome>) {
    && endings <= 1 && askings <= 1
    && (endings == 1 <==> !last.status.Running?)
    && (endings == 1 <==> run.Some?)
    && (run.Some? ==> EndsAs(last.status, run.value, last.intent))
    && last.revision == first.revision + endings + askings
    && last.generation == first.generation + (if last.status.Canceled? || last.status.Aborted? then 1 else 0)
    && last.intent == (if askings == 1 then Abort else first.intent)
  }

  lemma {:induction false} RunningLaw(start: map<string, Row>, ledger: seq<Write>, e: string)
    requires Lawful(start, ledger) && e in start && start[e].observed.status.Running?
    ensures EntryLaw(start[e].observed, RowAfter(start[e].observed, ledger, e), Endings(ledger, e), Askings(ledger, e),
                     EndedBy(ledger, e))
  {
    if ledger != [] { RunningLaw(start, ledger[..|ledger| - 1], e); }
  }

  /**
   A transaction in order: it is made by the worker that holds the entry, about the row it
   found. An ending reports how the run ended and whether it was seen, spends a
   generation only on an intent it carries out, and leaves the intent alone; a
   request to abort changes the intent and nothing else but the revision.
   */
  predicate InOrder(w: Write, row: Row) {
    && row.observed.status.Running? && w.HeldBy() == row.fence && w.Seen() == row.observed
    && match w
       case Ended(c, d) =>
         && EndsAs(d.status, c.outcome.execution, row.observed.intent)
         && (d.cause.NeverStarted? <==> c.outcome.execution.NotStarted?)
         && (d.cause.WasInterrupted? <==> c.outcome.execution.Interrupted?)
         && d.current == (row.observed.intent, row.observed.revision, row.observed.generation)
         && d.next.0 == row.observed.intent && d.next.1 == row.observed.revision + 1
         && d.next.2 == row.observed.generation + (if d.status.Canceled? || d.status.Aborted? then 1 else 0)
       case Asked(c, d) =>
         && !row.observed.intent.Abort?
         && d.current == (row.observed.intent, row.observed.revision, row.observed.generation)
         && d.next == (Abort, row.observed.revision + 1, row.observed.generation)
  }

  /** Every transaction of every ledger is in order with respect to the row as the earlier ones left it. */
  lemma {:induction false} LedgerInOrder(start: map<string, Row>, ledger: seq<Write>, i: nat)
    requires Lawful(start, ledger) && i < |ledger|
    ensures var w := ledger[i];
            w.EntryId() in start
              && InOrder(w, Row(RowAfter(start[w.EntryId()].observed, ledger[..i], w.EntryId()), start[w.EntryId()].fence))
  {
    var init := ledger[..|ledger| - 1];
    if i < |init| {
      LedgerInOrder(start, init, i);
      assert init[..i] == ledger[..i];
    }
  }

  /** An entry that was not RUNNING is never written at all. */
  lemma {:induction false} OthersUntouched(start: map<string, Row>, ledger: seq<Write>, e: string)
    requires Lawful(start, ledger) && e in start && !start[e].observed.status.Running?
    ensures RowAfter(start[e].observed, ledger, e) == start[e].observed
    ensures Endings(ledger, e) == 0 && Askings(ledger, e) == 0
  {
    if ledger != [] { OthersUntouched(start, ledger[..|ledger| - 1], e); }
  }

  /** Once ended, an entry keeps the row its ending wrote. */
  lemma {:induction false} EndingIsFinal(start: map<string, Row>, ledger: seq<Write>, w: Write)
    requires Lawful(start, ledger) && w in ledger && w.Ended?
    ensures w.EntryId() in start && RowAfter(start[w.EntryId()].observed, ledger, w.EntryId()) == w.Written()
    ensures DecideCompletion(w.completion.state, w.completion.outcome) == Ok(w.ending)
    ensures !w.Written().status.Running?
  {
    var init, last := ledger[..|ledger| - 1], ledger[|ledger| - 1];
    if w != last || w in init {
      EndingIsFinal(start, init, w);
    }
  }

  lemma {:induction false} AskingIsDecided(start: map<string, Row>, ledger: seq<Write>, w: Write)
    requires Lawful(start, ledger) && w in ledger && w.Asked?
    ensures DecideAbort(w.request.state, w.request.abortPendingCommandId) == Ok(w.asking)
  {
    var init, last := ledger[..|ledger| - 1], ledger[|ledger| - 1];
    if w != last || w in init {
      AskingIsDecided(start, init, w);
    }
  }

  /** A receipt found for a command carries the decision the command itself leads to. */
  lemma ReceiptIsDecision(start: map<string, Row>, s: Store, c: CompletionCommand)
    requires Consistent(start, s) && c.Valid() && Receipt(c.entryId, CompletionDigest(c)) in s.completions
    ensures DecideCompletion(c.state, c.outcome) == Ok(s.completions[Receipt(c.entryId, CompletionDigest(c))])
  {
    var key := Receipt(c.entryId, CompletionDigest(c));
    var w :| w in s.ledger && Ends(w, key, s.completions[key]);
    CompletionDigestInjective(w.completion, c);
    EndingIsFinal(start, s.ledger, w);
  }

  lemma AbortReceiptIsDecision(start: map<string, Row>, s: Store, c: AbortCommand)
    requires Consistent(start, s) && c.Valid() && Receipt(c.entryId, AbortDigest(c)) in s.aborts
    ensures DecideAbort(c.state, c.abortPendingCommandId) == Ok(s.aborts[Receipt(c.entryId, AbortDigest(c))])
  {
    var key := Receipt(c.entryId, AbortDigest(c));
    var w :| w in s.ledger && Asks(w, key, s.aborts[key]);
    AbortDigestInjective(w.request, c);
    AskingIsDecided(start, s.ledger, w);
  }

  // ----- who may write -----

  /** The worker holds the entry, and the row still is what it saw. */
  predicate Current(s: Store, entryId: string, fence: Fence, seen: Observed) {
    entryId in s.rows && s.rows[entryId] == Row(seen, fence)
  }

  /** A completion is committed exactly for a sound new request of the worker that holds the row it saw. */
  lemma CommitsExactly(s: Store, i: CompletionIntent)
    ensures ApplyCompletion(s, i).0 != s <==>
      && CheckCompletion(i).Ok? && Receipt(i.entryId, i.digest) !in s.completions
      && Current(s, i.entryId, i.command.fence, i.command.state)
    ensures CheckCompletion(i).Ok? && Receipt(i.entryId, i.digest) !in s.completions ==>
      var r := ApplyCompletion(s, i).1;
      && (r == Err(FenceStale) <==> i.entryId !in s.rows || s.rows[i.entryId].fence != i.command.fence)
      && (r == Err(IdentityConflict) <==>
            i.entryId in s.rows && s.rows[i.entryId].fence == i.command.fence && s.rows[i.entryId].observed != i.command.state)
  {
    hide CompletionDigest, CompletionCommand.Valid, DecideCompletion;
    if ApplyCompletion(s, i).0 != s { assert i.entryId in s.rows; }
    if CheckCompletion(i).Ok? && Holds(s, i.entryId, i.command.fence, i.command.state).Ok? {
      assert |Commit(s, Ended(i.command, i.decision)).ledger| == |s.ledger| + 1;
    }
  }

  lemma AbortCommitsExactly(s: Store, i: AbortIntent)
    ensures ApplyAbort(s, i).0 != s <==>
      && CheckAbort(i).Ok? && Receipt(i.entryId, i.digest) !in s.aborts
      && Current(s, i.entryId, i.command.fence, i.command.state)
    ensures CheckAbort(i).Ok? && Receipt(i.entryId, i.digest) !in s.aborts ==>
      var r := ApplyAbort(s, i).1;
      && (r == Err(FenceStale) <==> i.entryId !in s.rows || s.rows[i.entryId].fence != i.command.fence)
      && (r == Err(IdentityConflict) <==>
            i.entryId in s.rows && s.rows[i.entryId].fence == i.command.fence && s.rows[i.entryId].observed != i.command.state)
  {
    hide AbortDigest, AbortCommand.Valid, DecideAbort;
    if ApplyAbort(s, i).0 != s { assert i.entryId in s.rows; }
    if CheckAbort(i).Ok? && Holds(s, i.entryId, i.command.fence, i.command.state).Ok? {
      assert |Commit(s, Asked(i.command, i.decision)).ledger| == |s.ledger| + 1;
    }
  }

  /**
   A running entry can always be ended, whatever its run came to, until its counters
   have no successor that a later request could observe; an intent that is carried
   out needs a successor of the generation as well.
   */
  lemma EndableExactly(s: Observed, outcome: EngineOutcome)
    requires s.Valid() && outcome.Valid() && s.status.Running?
    ensures DecideCompletion(s, outcome).Ok? <==>
      && s.revision < 0x7FFF_FFFF_FFFF_FFFE
      && (outcome.execution.RunSucceeded? || s.intent.NoIntent? || s.generation < 0x7FFF_FFFF_FFFF_FFFE)
    ensures DecideCompletion(s, outcome).Err? ==> DecideCompletion(s, outcome) == Err(RevisionExhausted)
  {
  }
}

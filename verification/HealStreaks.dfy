/**
 The observation streak that decides when a healed selector may be published
 (domain/automation/healing.go): six dispositions, replay detection, strictly
 growing sequences and maturity at three runs.
 */
module HealStreaks {
  import opened Wrappers
  import opened Text

  datatype Outcome = Recovered | Failed | Succeeded

  /** `NoBand` is the empty string. */
  datatype Band = NoBand | Unknown | Applied | BelowCap

  datatype Disposition = NoDisposition | Observing | AutoPublish | AwaitApproval | Reset | Stale | Rejected

  const MATURITY: nat := 3

  /** Where an observation came from. */
  datatype Fact = Fact(factId: string, commitId: string, instanceId: string, entryId: string, stepExecutionId: string,
    sequence: nat)
  {
    predicate Valid() {
      && !Blank(factId) && !Blank(commitId) && !Blank(instanceId) && !Blank(entryId) && !Blank(stepExecutionId)
      && sequence != 0
    }

    /** Two observations that share an identity of which each has its own. */
    predicate Clashes(other: Fact) {
      factId == other.factId || commitId == other.commitId || instanceId == other.instanceId || sequence == other.sequence
    }
  }

  datatype Observation = Observation(fact: Fact, target: string, base: string, candidate: string, band: Band,
    outcome: Outcome, baseIsCurrent: bool)
  {
    predicate Valid() {
      && fact.Valid() && !Blank(target) && !Blank(base)
      && (outcome.Succeeded? ==> if Blank(candidate) then band.Unknown? else band.Applied? || band.BelowCap?)
      && (!outcome.Succeeded? ==> Blank(candidate) && (band.NoBand? || band.Unknown?))
    }

    /** A success that carries a candidate for the version that is still current. */
    predicate Promising() {
      outcome.Succeeded? && !band.Unknown? && baseIsCurrent
    }
  }

  datatype Streak = Streak(target: string, base: string, candidate: string, band: Band,
    contributions: seq<Fact>, consumed: seq<Fact>, lastSequence: nat, observing: bool, disposition: Disposition)
  {
    /** Everything observed so far; records from before the field existed kept only the contributions. */
    function Provenance(): seq<Fact> {
      if consumed != [] then consumed else contributions
    }

    predicate Empty() {
      !observing && disposition.NoDisposition? && contributions == []
    }

    predicate Matches(o: Observation) {
      target == o.target && base == o.base && candidate == o.candidate && band == o.band
    }

    /** `HealStreak.validate`. */
    ghost predicate Valid() {
      && Admissible(Provenance())
      && (Provenance() != [] ==> Provenance()[|Provenance()| - 1].sequence <= lastSequence)
      && if Empty() then
           Blank(target) && Blank(base) && Blank(candidate) && band.NoBand? && consumed == [] && lastSequence == 0
         else if disposition.Reset? || disposition.Stale? then
           !observing && !Blank(target) && !Blank(base) && lastSequence != 0
         else if disposition.Rejected? then
           !observing && !Blank(target) && !Blank(base) && !Blank(candidate) && lastSequence != 0
             && Admissible(contributions)
         else
           && !Blank(target) && !Blank(base) && !Blank(candidate)
           && (band.Applied? || band.BelowCap?)
           && Mature(observing, disposition, band, |contributions|)
           && lastSequence != 0 && Admissible(contributions)
    }

    function WithObservation(fact: Fact): Streak {
      this.(consumed := Provenance() + [fact], lastSequence := fact.sequence)
    }

    function WithDisposition(next: Disposition): Streak {
      this.(observing := false, disposition := next)
    }
  }

  const EMPTY := Streak("", "", "", NoBand, [], [], 0, false, NoDisposition)

  /** The number of contributions each disposition asks for. */
  predicate Mature(observing: bool, disposition: Disposition, band: Band, contributions: nat) {
    if observing then disposition.Observing? && contributions < MATURITY
    else match disposition
      case AutoPublish => band.Applied? && contributions == MATURITY
      case AwaitApproval => band.BelowCap? && contributions == MATURITY
      case _ => false
  }

  /** Facts in strictly growing sequence, no two of which share an identity. */
  ghost predicate Admissible(facts: seq<Fact>) {
    && (forall i | 0 <= i < |facts| :: facts[i].Valid())
    && forall i, j | 0 <= i < j < |facts| :: facts[i].sequence < facts[j].sequence && !facts[i].Clashes(facts[j])
  }

  /** `validateHealContributions` compares neighbours for order and all pairs for identity. */
  method ValidateContributions(facts: seq<Fact>) returns (ok: bool)
    ensures ok <==> Admissible(facts)
  {
    for n := 0 to |facts|
      invariant Admissible(facts[..n])
    {
      if !facts[n].Valid() { return false; }
      if n > 0 && facts[n].sequence <= facts[n - 1].sequence { return false; }
      for m := 0 to n
        invariant forall i | 0 <= i < m :: !facts[i].Clashes(facts[n])
      {
        if facts[m].Clashes(facts[n]) { return false; }
      }
      forall i | 0 <= i < n
        ensures facts[i].sequence < facts[n].sequence
      {
        assert facts[..n][i] == facts[i] && facts[..n][n - 1] == facts[n - 1];
      }
      forall i, j | 0 <= i < j < n
        ensures facts[i].sequence < facts[j].sequence && !facts[i].Clashes(facts[j])
      {
        assert facts[..n][i] == facts[i] && facts[..n][j] == facts[j];
      }
      assert forall i | 0 <= i < n :: facts[..n][i] == facts[i];
    }
    assert facts[..|facts|] == facts;
    return true;
  }

  datatype StreakError = StateInvalid | ObservationInvalid | ProvenanceConflict | SequenceConflict | RejectionInvalid

  /** What the scan over earlier facts finds first. */
  datatype Scan = Fresh | Replay | Conflict

  function Scanned(facts: seq<Fact>, fact: Fact): Scan {
    if facts == [] then Fresh
    else if facts[0] == fact then Replay
    else if facts[0].Clashes(fact) then Conflict
    else Scanned(facts[1..], fact)
  }

  function NewStreak(o: Observation): Streak {
    Streak(o.target, o.base, o.candidate, o.band, [o.fact], [o.fact], o.fact.sequence, true, Observing)
  }

  function NewTerminal(o: Observation, disposition: Disposition): Streak {
    Streak(o.target, o.base, "", NoBand, [], [o.fact], o.fact.sequence, false, disposition)
  }

  /** The successor of a streak for a new observation of a later sequence. */
  function Advance(s: Streak, o: Observation): Streak {
    var advanced := s.WithObservation(o.fact);
    match s.disposition
    case AutoPublish => advanced
    case AwaitApproval => advanced
    case Stale => if o.Promising() && o.target == s.target && o.base != s.base then NewStreak(o) else advanced
    case Rejected => if o.Promising() && o.target == s.target && o.base != s.base then NewStreak(o) else advanced
    case Reset => if o.Promising() then NewStreak(o) else advanced
    case _ =>
      if s.observing && (s.target != o.target || s.base != o.base) then advanced
      else if !o.baseIsCurrent then
        if s.observing then advanced.WithDisposition(Stale) else NewTerminal(o, Stale)
      else if o.outcome.Failed? then advanced
      else if o.outcome.Recovered? then NewTerminal(o, Reset)
      else if o.band.Unknown? then advanced
      else if !s.observing || !s.Matches(o) then NewStreak(o)
      else Contribute(advanced, o.fact)
  }

  /** One more run for the observed candidate; the third one matures the streak. */
  function Contribute(s: Streak, fact: Fact): Streak {
    var next := s.(contributions := s.contributions + [fact]);
    if |next.contributions| < MATURITY then next
    else next.(observing := false, disposition := if next.band.Applied? then AutoPublish else AwaitApproval)
  }

  /** `HealStreak.Observe`. */
  ghost function Observe(s: Streak, o: Observation): Result<Streak, StreakError> {
    if !s.Valid() then Err(StateInvalid)
    else if !o.Valid() then Err(ObservationInvalid)
    else match Scanned(s.Provenance(), o.fact)
      case Replay => Ok(s)
      case Conflict => Err(ProvenanceConflict)
      case Fresh => if o.fact.sequence <= s.lastSequence then Err(SequenceConflict) else Ok(Advance(s, o))
  }

  /** `HealStreak.Reject`. */
  ghost function Reject(s: Streak, sequence: nat): Result<Streak, StreakError> {
    if !s.Valid() then Err(StateInvalid)
    else if !s.disposition.AwaitApproval? then Err(RejectionInvalid)
    else if sequence == 0 || sequence <= s.lastSequence then Err(SequenceConflict)
    else Ok(s.(lastSequence := sequence, observing := false, disposition := Rejected))
  }

  // ----- the inductive invariant -----

  predicate Subsequence(a: seq<Fact>, b: seq<Fact>) {
    a == [] ||
    (b != [] &&
     if a[|a| - 1] == b[|b| - 1] then Subsequence(a[..|a| - 1], b[..|b| - 1]) else Subsequence(a, b[..|b| - 1]))
  }

  /** A valid streak whose contributions are among the facts it has consumed, in order. */
  ghost predicate Sound(s: Streak) {
    s.Valid() && Subsequence(s.contributions, s.Provenance())
  }

  lemma {:induction false} SubsequenceReflexive(a: seq<Fact>)
    ensures Subsequence(a, a)
  {
    if a != [] { SubsequenceReflexive(a[..|a| - 1]); }
  }

  lemma {:induction false} SubsequenceInit(a: seq<Fact>, b: seq<Fact>)
    requires Subsequence(a, b) && a != []
    ensures Subsequence(a[..|a| - 1], b)
  {
    if a[|a| - 1] != b[|b| - 1] {
      SubsequenceInit(a, b[..|b| - 1]);
    }
    var init := a[..|a| - 1];
    if init != [] && init[|init| - 1] == b[|b| - 1] {
      if a[|a| - 1] == b[|b| - 1] { SubsequenceInit(init, b[..|b| - 1]); } else { SubsequenceInit(init, b[..|b| - 1]); }
    }
  }

  lemma SubsequenceGrows(a: seq<Fact>, b: seq<Fact>, fact: Fact)
    requires Subsequence(a, b)
    ensures Subsequence(a, b + [fact]) && Subsequence(a + [fact], b + [fact])
  {
    assert (b + [fact])[..|b|] == b && (a + [fact])[..|a|] == a;
    if a != [] { SubsequenceInit(a, b); }
  }

  lemma {:induction false} SubsequenceMember(a: seq<Fact>, b: seq<Fact>, i: nat) returns (j: nat)
    requires Subsequence(a, b) && i < |a|
    ensures j < |b| && b[j] == a[i]
  {
    if a[|a| - 1] == b[|b| - 1] && i == |a| - 1 {
      j := |b| - 1;
    } else if a[|a| - 1] == b[|b| - 1] {
      j := SubsequenceMember(a[..|a| - 1], b[..|b| - 1], i);
    } else {
      j := SubsequenceMember(a, b[..|b| - 1], i);
    }
  }

  lemma {:induction false} ScannedMeaning(facts: seq<Fact>, fact: Fact)
    ensures Scanned(facts, fact).Fresh? <==> forall i | 0 <= i < |facts| :: !facts[i].Clashes(fact)
    ensures Scanned(facts, fact).Replay? ==> fact in facts
    ensures Admissible(facts) && fact in facts ==> Scanned(facts, fact).Replay?
  {
    ScannedIs(facts, fact);
    if Admissible(facts) && fact in facts { ScannedFinds(facts, fact); }
  }

  lemma {:induction false} ScannedIs(facts: seq<Fact>, fact: Fact)
    ensures Scanned(facts, fact).Fresh? <==> forall i | 0 <= i < |facts| :: !facts[i].Clashes(fact)
    ensures Scanned(facts, fact).Replay? ==> fact in facts
  {
    if facts != [] {
      ScannedIs(facts[1..], fact);
      assert forall i | 0 < i < |facts| :: facts[i] == facts[1..][i - 1];
    }
  }

  lemma {:induction false} ScannedFinds(facts: seq<Fact>, fact: Fact)
    requires Admissible(facts) && fact in facts
    ensures Scanned(facts, fact).Replay?
  {
    if facts[0] != fact {
      var k :| 0 <= k < |facts| && facts[k] == fact;
      assert facts[1..][k - 1] == fact;
      assert !facts[0].Clashes(facts[k]);
      ScannedFinds(facts[1..], fact);
    }
  }

  /** A new fact that clashes with nothing and comes later keeps the provenance admissible. */
  lemma AdmissibleGrows(facts: seq<Fact>, fact: Fact)
    requires Admissible(facts) && fact.Valid()
    requires forall i | 0 <= i < |facts| :: !facts[i].Clashes(fact) && facts[i].sequence < fact.sequence
    ensures Admissible(facts + [fact])
  {
  }

  lemma SequencesBounded(facts: seq<Fact>, last: nat)
    requires Admissible(facts) && (facts != [] ==> facts[|facts| - 1].sequence <= last)
    ensures forall i | 0 <= i < |facts| :: facts[i].sequence <= last
  {
    forall i | 0 <= i < |facts|
      ensures facts[i].sequence <= last
    {
      if i < |facts| - 1 { assert facts[i].sequence < facts[|facts| - 1].sequence; }
    }
  }

  lemma FreshIsAdmissible(s: Streak, o: Observation)
    requires Sound(s) && o.Valid() && Scanned(s.Provenance(), o.fact).Fresh? && o.fact.sequence > s.lastSequence
    ensures Admissible(s.Provenance() + [o.fact])
    ensures Admissible(s.contributions) ==> Admissible(s.contributions + [o.fact])
    ensures Admissible([o.fact])
  {
    var facts := s.Provenance();
    ScannedMeaning(facts, o.fact);
    SequencesBounded(facts, s.lastSequence);
    AdmissibleGrows(facts, o.fact);
    forall i | 0 <= i < |s.contributions|
      ensures !s.contributions[i].Clashes(o.fact) && s.contributions[i].sequence < o.fact.sequence
    {
      var j := SubsequenceMember(s.contributions, facts, i);
    }
    if Admissible(s.contributions) { AdmissibleGrows(s.contributions, o.fact); }
  }

  lemma ContributionsAdmissible(s: Streak)
    requires Sound(s)
    ensures Admissible(s.contributions)
  {
    var facts := s.Provenance();
    forall i | 0 <= i < |s.contributions|
      ensures s.contributions[i].Valid()
    {
      var j := SubsequenceMember(s.contributions, facts, i);
    }
    SubsequenceAdmissible(s.contributions, facts);
  }

  lemma {:induction false} SubsequenceAdmissible(a: seq<Fact>, b: seq<Fact>)
    requires Subsequence(a, b) && Admissible(b)
    ensures Admissible(a)
  {
    if a != [] {
      var init := b[..|b| - 1];
      assert Admissible(init);
      if a[|a| - 1] == b[|b| - 1] {
        SubsequenceAdmissible(a[..|a| - 1], init);
        forall i | 0 <= i < |a| - 1
          ensures !a[i].Clashes(a[|a| - 1]) && a[i].sequence < a[|a| - 1].sequence
        {
          var j := SubsequenceMember(a[..|a| - 1], init, i);
        }
        AdmissibleGrows(a[..|a| - 1], a[|a| - 1]);
        assert a == a[..|a| - 1] + [a[|a| - 1]];
      } else {
        SubsequenceAdmissible(a, init);
      }
    }
  }

  /** The one family of observations whose successor the streak's own validation refuses. */
  predicate Stuck(s: Streak, o: Observation) {
    s.Empty() && o.baseIsCurrent && (o.outcome.Failed? || (o.outcome.Succeeded? && o.band.Unknown?))
  }

  lemma NewStreakSound(o: Observation)
    requires o.Valid() && o.Promising()
    ensures Sound(NewStreak(o))
  {
    SubsequenceReflexive([o.fact]);
  }

  lemma NewTerminalSound(o: Observation, disposition: Disposition)
    requires o.Valid() && (disposition.Reset? || disposition.Stale?)
    ensures Sound(NewTerminal(o, disposition))
  {
  }

  ghost predicate Later(s: Streak, o: Observation) {
    o.Valid() && Scanned(s.Provenance(), o.fact).Fresh? && o.fact.sequence > s.lastSequence
  }

  /** A fresh observation can be added to any streak that holds something. */
  lemma AdvancedSound(s: Streak, o: Observation)
    requires Sound(s) && Later(s, o)
    ensures s.WithObservation(o.fact).Valid() <==> !s.Empty()
    ensures !s.Empty() ==> Sound(s.WithObservation(o.fact))
  {
    FreshIsAdmissible(s, o);
    SubsequenceGrows(s.contributions, s.Provenance(), o.fact);
    hide Admissible, Subsequence, Scanned, Blank;
  }

  lemma StaleSound(s: Streak, o: Observation)
    requires Sound(s) && Later(s, o) && s.observing
    ensures Sound(s.WithObservation(o.fact).WithDisposition(Stale))
  {
    FreshIsAdmissible(s, o);
    SubsequenceGrows(s.contributions, s.Provenance(), o.fact);
    hide Admissible, Subsequence, Scanned, Blank;
  }

  lemma ContributeSound(s: Streak, o: Observation)
    requires Sound(s) && Later(s, o) && s.observing
    ensures Sound(Contribute(s.WithObservation(o.fact), o.fact))
  {
    FreshIsAdmissible(s, o);
    ContributionsAdmissible(s);
    SubsequenceGrows(s.contributions, s.Provenance(), o.fact);
    var next, facts := Contribute(s.WithObservation(o.fact), o.fact), s.Provenance() + [o.fact];
    assert next.consumed == facts && next.Provenance() == facts && facts[|facts| - 1] == o.fact;
    assert next.contributions == s.contributions + [o.fact] && next.lastSequence == o.fact.sequence > 0;
    assert Mature(next.observing, next.disposition, next.band, |next.contributions|);
    assert next.target == s.target && next.base == s.base && next.candidate == s.candidate && next.band == s.band;
    assert !Blank(s.target) && !Blank(s.base) && !Blank(s.candidate) && (s.band.Applied? || s.band.BelowCap?);
    hide Admissible, Subsequence, Scanned, Blank, Contribute, Streak.WithObservation, Mature, Sound;
    CountingIsSound(next);
  }

  lemma CountingIsSound(s: Streak)
    requires Admissible(s.Provenance()) && Admissible(s.contributions) && Subsequence(s.contributions, s.Provenance())
    requires s.Provenance() != [] && s.Provenance()[|s.Provenance()| - 1].sequence <= s.lastSequence
    requires Mature(s.observing, s.disposition, s.band, |s.contributions|) && s.lastSequence != 0
    requires !Blank(s.target) && !Blank(s.base) && !Blank(s.candidate) && (s.band.Applied? || s.band.BelowCap?)
    ensures Sound(s)
  {
    hide Admissible, Subsequence, Blank;
  }

  /** Where a valid streak stands. */
  lemma StreakShape(s: Streak)
    requires s.Valid()
    ensures s.disposition.NoDisposition? <==> s.Empty()
    ensures s.disposition.Observing? <==> s.observing
    ensures s.observing ==> s.band.Applied? || s.band.BelowCap?
  {
    hide Admissible, Blank;
  }

  /** A run of the same candidate, band, target and version, with the version current. */
  predicate Qualifies(o: Observation, s: Streak) {
    s.Matches(o) && o.outcome.Succeeded? && o.baseIsCurrent
  }

  /** An observation on the streak's target and version that must end the count. */
  predicate Interrupts(o: Observation, s: Streak) {
    && o.target == s.target && o.base == s.base
    && (!o.baseIsCurrent || o.outcome.Recovered? || (o.outcome.Succeeded? && !o.band.Unknown? && !s.Matches(o)))
  }

  /** The five things a fresh observation can do to a streak. */
  datatype Move = Keep | Restart | End(disposition: Disposition) | GoStale | Count

  ghost predicate Moves(s: Streak, o: Observation, move: Move) {
    match move
    case Keep =>
      && Advance(s, o) == s.WithObservation(o.fact) && (s.Empty() <==> Stuck(s, o))
      && (s.observing ==> !Interrupts(o, s) && !Qualifies(o, s))
    case Restart => Advance(s, o) == NewStreak(o) && o.Promising() && !Stuck(s, o)
    case End(d) => Advance(s, o) == NewTerminal(o, d) && (d.Stale? || d.Reset?) && !Stuck(s, o)
    case GoStale => Advance(s, o) == s.WithObservation(o.fact).WithDisposition(Stale) && s.observing && !Stuck(s, o)
    case Count =>
      Advance(s, o) == Contribute(s.WithObservation(o.fact), o.fact) && s.observing && Qualifies(o, s)
        && !Interrupts(o, s) && !Stuck(s, o)
  }

  lemma SomeMove(s: Streak, o: Observation) returns (move: Move)
    requires s.Valid() && o.Valid()
    ensures Moves(s, o, move)
  {
    StreakShape(s);
    assert o.outcome.Succeeded? && !o.band.Unknown? && o.baseIsCurrent ==> o.Promising();
    hide Streak.Valid, Observation.Valid, Contribute, NewStreak, NewTerminal, Streak.WithObservation, Streak.WithDisposition;
    var ends := s.disposition.Stale? || s.disposition.Rejected?;
    if s.disposition.AutoPublish? || s.disposition.AwaitApproval? { move := Keep; }
    else if ends { move := if o.Promising() && o.target == s.target && o.base != s.base then Restart else Keep; }
    else if s.disposition.Reset? { move := if o.Promising() then Restart else Keep; }
    else if s.observing && (s.target != o.target || s.base != o.base) { move := Keep; }
    else if !o.baseIsCurrent { move := if s.observing then GoStale else End(Stale); }
    else if o.outcome.Failed? { move := Keep; }
    else if o.outcome.Recovered? { move := End(Reset); }
    else if o.band.Unknown? { move := Keep; }
    else if !s.observing || !s.Matches(o) { move := Restart; }
    else { move := Count; }
  }

  lemma SoundIsValid(s: Streak)
    requires Sound(s)
    ensures s.Valid()
  {
  }

  lemma AdvanceKeepsSound(s: Streak, o: Observation)
    requires Sound(s) && Later(s, o)
    ensures !Stuck(s, o) ==> Sound(Advance(s, o))
    ensures Stuck(s, o) ==> !Advance(s, o).Valid()
  {
    var move := SomeMove(s, o);
    match move {
      case Keep => AdvancedSound(s, o);
      case Restart => NewStreakSound(o);
      case End(d) => NewTerminalSound(o, d);
      case GoStale => StaleSound(s, o);
      case Count => ContributeSound(s, o);
    }
    hide Sound, Streak.Valid, Observation.Valid, Later, Contribute, NewStreak, NewTerminal, Advance, Stuck;
    hide Streak.WithObservation, Streak.WithDisposition;
  }

  /** Every accepted observation keeps a sound streak sound, except for that family. */
  lemma ObserveKeepsSound(s: Streak, o: Observation)
    requires Sound(s) && Observe(s, o).Ok?
    ensures Observe(s, o).value.Valid() <==> !Stuck(s, o) || o.fact in s.Provenance()
    ensures Observe(s, o).value.Valid() ==> Sound(Observe(s, o).value)
  {
    ScannedMeaning(s.Provenance(), o.fact);
    if Scanned(s.Provenance(), o.fact).Fresh? {
      AdvanceKeepsSound(s, o);
      if !Stuck(s, o) { SoundIsValid(Advance(s, o)); }
    }
    hide Sound, Streak.Valid, Observation.Valid, Advance, Stuck;
  }

  lemma RejectKeepsSound(s: Streak, sequence: nat)
    requires Sound(s) && Reject(s, sequence).Ok?
    ensures Sound(Reject(s, sequence).value) && Reject(s, sequence).value.lastSequence > s.lastSequence
    ensures Reject(s, sequence).value.Provenance() == s.Provenance()
  {
    hide Admissible, Subsequence;
  }

  /** The last sequence grows with every observation that is not a replay. */
  lemma SequenceGrows(s: Streak, o: Observation)
    requires Sound(s) && Observe(s, o).Ok?
    ensures o.fact in s.Provenance() ==> Observe(s, o).value == s
    ensures o.fact !in s.Provenance() ==>
      Observe(s, o).value.lastSequence == o.fact.sequence > s.lastSequence
  {
    ScannedMeaning(s.Provenance(), o.fact);
    hide Admissible;
  }

  /** Replaying any observation a sound streak has consumed changes nothing; the last accepted one is such. */
  lemma ReplayIsIdentity(s: Streak, o: Observation)
    requires Sound(s) && o.Valid() && o.fact in s.Provenance()
    ensures Observe(s, o) == Ok(s)
  {
    ScannedMeaning(s.Provenance(), o.fact);
  }

  lemma AcceptedIsConsumed(s: Streak, o: Observation)
    requires Sound(s) && Observe(s, o).Ok?
    ensures o.fact in Observe(s, o).value.Provenance()
  {
    ScannedMeaning(s.Provenance(), o.fact);
    hide Admissible;
  }

  /** The exact reasons for which a sound streak refuses a valid observation. */
  lemma RefusalsAreExact(s: Streak, o: Observation)
    requires Sound(s) && o.Valid() && o.fact !in s.Provenance()
    ensures Observe(s, o) == Err(ProvenanceConflict) <==> exists f :: f in s.Provenance() && f.Clashes(o.fact)
    ensures Observe(s, o) == Err(SequenceConflict) <==>
      o.fact.sequence <= s.lastSequence && forall f | f in s.Provenance() :: !f.Clashes(o.fact)
  {
    ScannedMeaning(s.Provenance(), o.fact);
    hide Admissible, Advance;
  }

  /** A failed first heal of a current version: accepted, and unreadable ever after. */
  lemma EmptyStreakCanGetStuck(fact: Fact, later: Observation)
    requires fact.Valid()
    ensures Sound(EMPTY)
    ensures var o := Observation(fact, "button", "v1", "", NoBand, Failed, true);
            o.Valid() && Observe(EMPTY, o).Ok? && Observe(Observe(EMPTY, o).value, later) == Err(StateInvalid)
  {
    var o := Observation(fact, "button", "v1", "", NoBand, Failed, true);
    assert !IsSpace(o.target[0]) && !IsSpace(o.base[0]);
  }

  // ----- maturity over whole runs -----

  datatype Input = Observed(observation: Observation) | Denied(sequence: nat)

  /** A refused input leaves the persisted streak as it is. */
  ghost function Step(s: Streak, input: Input): Streak {
    var r := match input
      case Observed(o) => Observe(s, o)
      case Denied(sequence) => Reject(s, sequence);
    if r.Ok? then r.value else s
  }

  ghost function Run(s: Streak, inputs: seq<Input>): Streak {
    if inputs == [] then s else Step(Run(s, inputs[..|inputs| - 1]), inputs[|inputs| - 1])
  }

  /** The observations of a run that were accepted for the first time, in order. */
  ghost function Accepted(s: Streak, inputs: seq<Input>): seq<Observation> {
    if inputs == [] then [] else
    var before, last := Run(s, inputs[..|inputs| - 1]), inputs[|inputs| - 1];
    var earlier := Accepted(s, inputs[..|inputs| - 1]);
    if last.Observed? && Observe(before, last.observation).Ok? && last.observation.fact !in before.Provenance()
    then earlier + [last.observation] else earlier
  }

  function Contributing(window: seq<Observation>, s: Streak): seq<Fact> {
    if window == [] then [] else
    var earlier, last := Contributing(window[..|window| - 1], s), window[|window| - 1];
    if Qualifies(last, s) then earlier + [last.fact] else earlier
  }

  /**
   The contributions are exactly the qualifying runs of an unbroken window of the
   accepted observations.
   */
  ghost predicate Unbroken(s: Streak, window: seq<Observation>) {
    && s.contributions == Contributing(window, s)
    && forall i | 0 <= i < |window| :: !Interrupts(window[i], s)
  }

  ghost predicate GrownFrom(s: Streak, accepted: seq<Observation>, from: nat, to: nat) {
    from <= to <= |accepted| && Unbroken(s, accepted[from..to])
  }

  /** Counting streaks have an unbroken window up to now; matured ones have had one. */
  ghost predicate Earned(s: Streak, accepted: seq<Observation>) {
    && (s.observing ==> exists from :: GrownFrom(s, accepted, from, |accepted|))
    && (s.disposition.AutoPublish? || s.disposition.AwaitApproval? ==>
          exists from, to :: GrownFrom(s, accepted, from, to))
  }

  predicate SameIdentity(s: Streak, t: Streak) {
    s.target == t.target && s.base == t.base && s.candidate == t.candidate && s.band == t.band
  }

  lemma {:induction false} ContributingSame(window: seq<Observation>, s: Streak, t: Streak)
    requires SameIdentity(s, t)
    ensures Contributing(window, s) == Contributing(window, t)
    ensures forall i | 0 <= i < |window| :: Interrupts(window[i], s) == Interrupts(window[i], t)
  {
    if window != [] { ContributingSame(window[..|window| - 1], s, t); }
  }

  /** One more accepted observation extends an open window. */
  lemma GrownExtends(s: Streak, next: Streak, accepted: seq<Observation>, o: Observation, from: nat)
    requires SameIdentity(s, next) && GrownFrom(s, accepted, from, |accepted|) && !Interrupts(o, s)
    requires next.contributions == s.contributions + (if Qualifies(o, s) then [o.fact] else [])
    ensures GrownFrom(next, accepted + [o], from, |accepted| + 1)
  {
    var window, longer := accepted[from..|accepted|], (accepted + [o])[from..|accepted| + 1];
    assert longer[..|longer| - 1] == window && longer[|longer| - 1] == o;
    ContributingSame(window, s, next);
    forall i | 0 <= i < |longer|
      ensures !Interrupts(longer[i], next)
    {
      if i < |window| { assert longer[i] == window[i]; }
    }
    hide Contributing;
    assert Contributing(longer, next) == next.contributions by { ContributingLast(longer, next); }
  }

  lemma ContributingLast(window: seq<Observation>, s: Streak)
    requires window != []
    ensures Contributing(window, s)
         == Contributing(window[..|window| - 1], s)
          + (if Qualifies(window[|window| - 1], s) then [window[|window| - 1].fact] else [])
  {
  }

  /** A closed window stays where it is. */
  lemma GrownKept(s: Streak, next: Streak, accepted: seq<Observation>, o: Observation, from: nat, to: nat)
    requires SameIdentity(s, next) && GrownFrom(s, accepted, from, to) && next.contributions == s.contributions
    ensures GrownFrom(next, accepted + [o], from, to)
  {
    ContributingSame(accepted[from..to], s, next);
    assert (accepted + [o])[from..to] == accepted[from..to];
  }

  lemma GrownNew(o: Observation, accepted: seq<Observation>)
    requires o.Promising()
    ensures GrownFrom(NewStreak(o), accepted + [o], |accepted|, |accepted| + 1)
  {
    var window := (accepted + [o])[|accepted|..|accepted| + 1];
    assert window == [o] && window[..0] == [];
    ContributingLast(window, NewStreak(o));
    assert Contributing([], NewStreak(o)) == [];
  }

  /** A streak that goes on counting, or stays as it matured, is still earned. */
  lemma KeepEarned(s: Streak, next: Streak, accepted: seq<Observation>, o: Observation)
    requires s.Valid() && Earned(s, accepted) && next == s.WithObservation(o.fact)
    requires s.observing ==> !Interrupts(o, s) && !Qualifies(o, s)
    ensures Earned(next, accepted + [o])
  {
    var n := |accepted|;
    assert SameIdentity(s, next) && next.contributions == s.contributions;
    hide GrownFrom, Streak.Valid, Interrupts, Qualifies, Streak.WithObservation;
    if s.observing {
      var from :| GrownFrom(s, accepted, from, n);
      GrownExtends(s, next, accepted, o, from);
    }
    if s.disposition.AutoPublish? || s.disposition.AwaitApproval? {
      var from, to :| GrownFrom(s, accepted, from, to);
      GrownKept(s, next, accepted, o, from, to);
    }
    assert next.observing == s.observing && next.disposition == s.disposition && |accepted + [o]| == n + 1;
  }

  lemma CountEarned(s: Streak, next: Streak, accepted: seq<Observation>, o: Observation)
    requires s.observing && Earned(s, accepted) && Qualifies(o, s) && !Interrupts(o, s)
    requires next == Contribute(s.WithObservation(o.fact), o.fact)
    ensures Earned(next, accepted + [o])
  {
    assert SameIdentity(s, next) && next.contributions == s.contributions + [o.fact];
    hide GrownFrom, Interrupts, Qualifies, Contribute, Streak.WithObservation;
    var from :| GrownFrom(s, accepted, from, |accepted|);
    GrownExtends(s, next, accepted, o, from);
    assert |accepted + [o]| == |accepted| + 1;
  }

  lemma RestartEarned(o: Observation, accepted: seq<Observation>)
    requires o.Promising()
    ensures Earned(NewStreak(o), accepted + [o])
  {
    GrownNew(o, accepted);
    hide GrownFrom;
    assert |accepted + [o]| == |accepted| + 1;
  }

  lemma EndEarned(next: Streak, accepted: seq<Observation>)
    requires !next.observing && !next.disposition.AutoPublish? && !next.disposition.AwaitApproval?
    ensures Earned(next, accepted)
  {
    hide GrownFrom;
  }

  lemma EarnedStep(s: Streak, accepted: seq<Observation>, o: Observation)
    requires s.Valid() && o.Valid() && Earned(s, accepted)
    ensures Earned(Advance(s, o), accepted + [o])
  {
    var move := SomeMove(s, o);
    hide GrownFrom, Streak.Valid, Observation.Valid, Advance, Stuck, Interrupts, Qualifies, Earned, Contribute, NewStreak;
    match move {
      case Keep => KeepEarned(s, Advance(s, o), accepted, o);
      case Restart => RestartEarned(o, accepted);
      case Count => CountEarned(s, Advance(s, o), accepted, o);
      case _ => EndEarned(Advance(s, o), accepted + [o]);
    }
  }

  lemma RejectEarned(s: Streak, sequence: nat, accepted: seq<Observation>)
    requires Reject(s, sequence).Ok?
    ensures Earned(Reject(s, sequence).value, accepted)
  {
    hide Streak.Valid, GrownFrom;
  }

  /** Every reachable streak is sound, or refused by its own validation for good; and it is earned. */
  lemma {:induction false} RunIsEarned(inputs: seq<Input>)
    ensures Run(EMPTY, inputs).Valid() ==> Sound(Run(EMPTY, inputs))
    ensures Earned(Run(EMPTY, inputs), Accepted(EMPTY, inputs))
  {
    if inputs != [] {
      var before, input := Run(EMPTY, inputs[..|inputs| - 1]), inputs[|inputs| - 1];
      RunIsEarned(inputs[..|inputs| - 1]);
      var accepted := Accepted(EMPTY, inputs[..|inputs| - 1]);
      match input {
        case Observed(o) =>
          if Observe(before, o).Ok? {
            ObserveKeepsSound(before, o);
            ScannedMeaning(before.Provenance(), o.fact);
            if o.fact !in before.Provenance() { EarnedStep(before, accepted, o); }
          }
        case Denied(sequence) =>
          if Reject(before, sequence).Ok? {
            RejectKeepsSound(before, sequence);
            RejectEarned(before, sequence, accepted);
          }
      }
      hide Sound, Streak.Valid, Observation.Valid, Advance, Earned, Admissible, Scanned, Streak.Provenance;
    }
  }

  /** The indices at which a window's qualifying runs stand. */
  lemma {:induction false} ContributingIndices(window: seq<Observation>, s: Streak) returns (at: seq<nat>)
    ensures |at| == |Contributing(window, s)|
    ensures forall x, y | 0 <= x < y < |at| :: at[x] < at[y]
    ensures forall x | 0 <= x < |at| ::
      at[x] < |window| && Qualifies(window[at[x]], s) && Contributing(window, s)[x] == window[at[x]].fact
    ensures forall m: nat | m < |window| && m !in at :: !Qualifies(window[m], s)
  {
    if window == [] {
      at := [];
    } else {
      var init, last := window[..|window| - 1], |window| - 1;
      at := ContributingIndices(init, s);
      if Qualifies(window[last], s) { at := at + [last]; }
      assert forall m: nat | m < last :: window[m] == init[m];
    }
  }

  /** Runs `i`, `j` and `k` alone matured the streak, and nothing between them spoke against it. */
  ghost predicate MaturedBy(s: Streak, accepted: seq<Observation>, i: nat, j: nat, k: nat) {
    && i < j < k < |accepted|
    && s.contributions == [accepted[i].fact, accepted[j].fact, accepted[k].fact]
    && (forall m | i <= m <= k :: Qualifies(accepted[m], s) <==> m == i || m == j || m == k)
    && (forall m | i <= m <= k :: !Interrupts(accepted[m], s))
    && var facts := s.contributions;
       facts[0].instanceId != facts[1].instanceId && facts[1].instanceId != facts[2].instanceId
         && facts[0].instanceId != facts[2].instanceId
  }

  lemma WindowMatures(s: Streak, accepted: seq<Observation>, from: nat, to: nat) returns (i: nat, j: nat, k: nat)
    requires GrownFrom(s, accepted, from, to) && |s.contributions| == MATURITY && Admissible(s.contributions)
    ensures MaturedBy(s, accepted, i, j, k)
  {
    var window := accepted[from..to];
    var at := ContributingIndices(window, s);
    i, j, k := from + at[0], from + at[1], from + at[2];
    forall m | i <= m <= k
      ensures Qualifies(accepted[m], s) <==> m == i || m == j || m == k
      ensures !Interrupts(accepted[m], s)
    {
      assert accepted[m] == window[m - from];
      if m != i && m != j && m != k {
        assert at == [at[0], at[1], at[2]];
        assert (m - from) as nat !in at;
      }
    }
    var facts := s.contributions;
    assert facts[0] == accepted[i].fact && facts[1] == accepted[j].fact && facts[2] == accepted[k].fact;
    assert !facts[0].Clashes(facts[1]) && !facts[1].Clashes(facts[2]) && !facts[0].Clashes(facts[2]);
    hide Contributing, Qualifies, Interrupts;
  }

  /**
   A streak that matured from nothing rests on exactly three current successes of
   one candidate in one band, from three instances, with no recovery, no stale
   version and no other candidate's success between them.
   */
  lemma MaturityIsEarned(inputs: seq<Input>) returns (i: nat, j: nat, k: nat)
    requires Run(EMPTY, inputs).Valid()
    requires Run(EMPTY, inputs).disposition.AutoPublish? || Run(EMPTY, inputs).disposition.AwaitApproval?
    ensures MaturedBy(Run(EMPTY, inputs), Accepted(EMPTY, inputs), i, j, k)
    ensures if Run(EMPTY, inputs).disposition.AutoPublish? then Run(EMPTY, inputs).band.Applied?
            else Run(EMPTY, inputs).band.BelowCap?
  {
    var s, accepted := Run(EMPTY, inputs), Accepted(EMPTY, inputs);
    RunIsEarned(inputs);
    ContributionsAdmissible(s);
    var from, to :| GrownFrom(s, accepted, from, to);
    assert |s.contributions| == MATURITY && if s.disposition.AutoPublish? then s.band.Applied? else s.band.BelowCap?;
    i, j, k := WindowMatures(s, accepted, from, to);
    hide *;
  }

  /** AUTO PUBLISH rests on three current APPLIED successes. */
  lemma AutoPublishIsEarned(inputs: seq<Input>) returns (i: nat, j: nat, k: nat)
    requires Run(EMPTY, inputs).Valid() && Run(EMPTY, inputs).disposition.AutoPublish?
    ensures MaturedBy(Run(EMPTY, inputs), Accepted(EMPTY, inputs), i, j, k)
    ensures Run(EMPTY, inputs).band.Applied?
  {
    hide *;
    i, j, k := MaturityIsEarned(inputs);
  }

  /** The sequences of the observations a run accepts grow, so no fact is accepted twice. */
  lemma {:induction false} AcceptedGrow(inputs: seq<Input>)
    ensures Growing(Accepted(EMPTY, inputs), Run(EMPTY, inputs).lastSequence)
  {
    if inputs != [] {
      var init, input := inputs[..|inputs| - 1], inputs[|inputs| - 1];
      var before := Run(EMPTY, init);
      AcceptedGrow(init);
      RunIsEarned(init);
      match input {
        case Observed(o) => if before.Valid() && Observe(before, o).Ok? { SequenceGrows(before, o); }
        case Denied(sequence) => if before.Valid() && Reject(before, sequence).Ok? { RejectKeepsSound(before, sequence); }
      }
      hide Sound, Streak.Valid, Observation.Valid, Advance, Scanned, Streak.Provenance, Earned;
    }
  }

  ghost predicate Growing(accepted: seq<Observation>, last: nat) {
    && (forall i | 0 <= i < |accepted| :: accepted[i].fact.sequence <= last)
    && forall i, j | 0 <= i < j < |accepted| :: accepted[i].fact.sequence < accepted[j].fact.sequence
  }

  /** The observation that matures a streak is its last contribution. */
  lemma MaturedJustNow(s: Streak, o: Observation)
    requires s.Valid() && o.Valid() && Observe(s, o).Ok?
    requires var next := Observe(s, o).value.disposition;
             next != s.disposition && (next.AutoPublish? || next.AwaitApproval?)
    ensures o.fact !in s.Provenance() && !Stuck(s, o) && s.observing
    ensures Observe(s, o).value == Advance(s, o)
    ensures var facts := Observe(s, o).value.contributions; |facts| > 0 && facts[|facts| - 1] == o.fact
  {
    ScannedMeaning(s.Provenance(), o.fact);
    var move := SomeMove(s, o);
    hide Streak.Valid, Observation.Valid, Qualifies, Interrupts, Advance, Admissible, Stuck;
  }

  /** A failure, or a success without a candidate, on the current version is remembered and changes nothing else. */
  lemma NeutralIsConsumed(s: Streak, o: Observation)
    requires s.Valid() && o.Valid() && o.baseIsCurrent
    requires o.outcome.Failed? || (o.outcome.Succeeded? && o.band.Unknown?)
    requires o.fact.sequence > s.lastSequence && forall f | f in s.Provenance() :: !f.Clashes(o.fact)
    ensures Observe(s, o) == Ok(s.(consumed := s.Provenance() + [o.fact], lastSequence := o.fact.sequence))
  {
    ScannedMeaning(s.Provenance(), o.fact);
    hide Streak.Valid, Observation.Valid, Admissible, Scanned;
  }
}

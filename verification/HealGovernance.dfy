/**
 Planning what an accepted heal fact does to the streak of its element version
 (application/execution/heal_governance.go), and the terminal effect it causes.
 */
module HealGovernance {
  import opened Wrappers
  import opened Text
  import opened HealStreaks

  datatype Key = Key(target: string, base: string)

  datatype CandidateStatus = CandidateObserving | AwaitingApproval | Promoted | CandidateRejected | CandidateStale

  datatype EffectKind = PublishEffect | ApprovalEffect | ResetEffect | StaleEffect

  datatype Effect = Effect(kind: EffectKind, candidate: string, band: Band, contributions: seq<Fact>)

  /** An effect that was already stored, with the identities of what it led to. */
  datatype StoredEffect = StoredEffect(effect: Effect, versionId: string, reviewId: string)

  datatype Snapshot = Snapshot(key: Key, currentVersion: string, revision: nat, streak: Streak,
    status: Option<CandidateStatus>, existing: Option<StoredEffect>)

  datatype EvidenceBand = DecisionUnknown | DecisionApplied | DecisionBelowCap | DecisionOther

  datatype ObservationPayload = ObservationPayload(id: string, instanceId: string, entryId: string,
    stepExecutionId: string, target: string, base: string, candidate: string, confidence: real,
    band: EvidenceBand, succeeded: bool)

  datatype ResetPayload = ResetPayload(entryId: string, stepExecutionId: string, target: string, base: string)

  datatype FactKind = ObservationFact | ResetFact | OtherFact

  datatype AcceptedFact = AcceptedFact(kind: FactKind, factId: string, commitId: string, instanceId: string,
    sequence: nat, observation: Option<ObservationPayload>, reset: Option<ResetPayload>)

  datatype PlanError = SnapshotInvalid | EffectConflict | FactInvalid | Refused(error: StreakError)

  datatype Decision = Decision(key: Key, factId: string, sequence: nat, expectedRevision: nat, next: Streak,
    effect: Option<Effect>)

  /** A trimmed identity without control characters. */
  predicate CanonicalIdentity(s: string) {
    && s != [] && |s| <= MAX_STRING_BYTES && !IsSpace(s[0]) && !IsSpace(s[|s| - 1])
    && forall i | 0 <= i < |s| :: ' ' <= s[i] && s[i] != 127 as char
  }

  predicate CanonicalFact(f: Fact) {
    && CanonicalIdentity(f.factId) && CanonicalIdentity(f.commitId) && CanonicalIdentity(f.instanceId)
    && CanonicalIdentity(f.entryId) && CanonicalIdentity(f.stepExecutionId)
  }

  predicate CanonicalStreak(s: Streak) {
    && (s.target == "" || CanonicalIdentity(s.target)) && (s.base == "" || CanonicalIdentity(s.base))
    && (s.candidate == "" || CanonicalIdentity(s.candidate))
    && (forall f | f in s.contributions :: CanonicalFact(f)) && (forall f | f in s.consumed :: CanonicalFact(f))
  }

  predicate StatusMatches(status: Option<CandidateStatus>, d: Disposition) {
    match status
    case None => true
    case Some(CandidateObserving) => d.Observing?
    case Some(AwaitingApproval) => d.AwaitApproval?
    case Some(Promoted) => d.AutoPublish?
    case Some(CandidateRejected) => d.Rejected?
    case Some(CandidateStale) => d.Stale?
  }

  /** The effect kind a disposition asks for. */
  function EffectOf(d: Disposition): Option<EffectKind> {
    match d
    case AutoPublish => Some(PublishEffect)
    case AwaitApproval => Some(ApprovalEffect)
    case Reset => Some(ResetEffect)
    case Stale => Some(StaleEffect)
    case _ => None
  }

  predicate EffectIdentities(e: StoredEffect) {
    && (e.versionId == "" || CanonicalIdentity(e.versionId)) && (e.reviewId == "" || CanonicalIdentity(e.reviewId))
    && match e.effect.kind
       case PublishEffect => e.reviewId == ""
       case ApprovalEffect => e.versionId == ""
       case _ => e.versionId == "" && e.reviewId == ""
  }

  /** A stored effect must be the one the streak's disposition stands for. */
  predicate ExistingAgrees(existing: Option<StoredEffect>, s: Streak) {
    existing.None? ||
    (EffectIdentities(existing.value) && EffectOf(s.disposition).Some?
     && existing.value.effect == Effect(EffectOf(s.disposition).value, s.candidate, s.band, s.contributions))
  }

  ghost predicate SnapshotOk(p: Snapshot) {
    && CanonicalIdentity(p.key.target) && CanonicalIdentity(p.key.base) && CanonicalIdentity(p.currentVersion)
    && p.revision != 0 && p.streak.Valid() && CanonicalStreak(p.streak)
    && (!p.streak.disposition.NoDisposition? ==> p.streak.target == p.key.target && p.streak.base == p.key.base)
    && StatusMatches(p.status, p.streak.disposition)
  }

  predicate FactOk(f: AcceptedFact) {
    CanonicalIdentity(f.factId) && CanonicalIdentity(f.commitId) && CanonicalIdentity(f.instanceId) && f.sequence != 0
  }

  function BandOf(band: EvidenceBand): Option<Band> {
    match band
    case DecisionUnknown => Some(Unknown)
    case DecisionApplied => Some(Applied)
    case DecisionBelowCap => Some(BelowCap)
    case DecisionOther => None
  }

  predicate PayloadOk(o: ObservationPayload, f: AcceptedFact, key: Key) {
    && 0.0 <= o.confidence <= 1.0
    && CanonicalIdentity(o.id) && CanonicalIdentity(o.instanceId) && CanonicalIdentity(o.entryId)
    && CanonicalIdentity(o.stepExecutionId) && CanonicalIdentity(o.target) && CanonicalIdentity(o.base)
    && (o.candidate != "" ==> CanonicalIdentity(o.candidate))
    && o.id == f.factId && o.instanceId == f.instanceId && o.target == key.target && o.base == key.base
  }

  predicate ResetOk(r: ResetPayload, key: Key) {
    && CanonicalIdentity(r.entryId) && CanonicalIdentity(r.stepExecutionId)
    && CanonicalIdentity(r.target) && CanonicalIdentity(r.base)
    && r.target == key.target && r.base == key.base
  }

  /** `mapAcceptedHealFact`: the observation a fact stands for. */
  function Mapped(f: AcceptedFact, p: Snapshot): Option<Observation> {
    var current := p.currentVersion == p.key.base;
    match f.kind
    case ObservationFact =>
      if f.observation.None? || f.reset.Some? || !PayloadOk(f.observation.value, f, p.key) then None else
      var o := f.observation.value;
      if BandOf(o.band).None? then None else
      Some(Observation(Fact(f.factId, f.commitId, f.instanceId, o.entryId, o.stepExecutionId, f.sequence),
        o.target, o.base, o.candidate, BandOf(o.band).value, if o.succeeded then Succeeded else Failed, current))
    case ResetFact =>
      if f.reset.None? || f.observation.Some? || !ResetOk(f.reset.value, p.key) then None else
      var r := f.reset.value;
      Some(Observation(Fact(f.factId, f.commitId, f.instanceId, r.entryId, r.stepExecutionId, f.sequence),
        r.target, r.base, "", NoBand, Recovered, current))
    case OtherFact => None
  }

  /** The effect of moving from one streak to the next: only a change of disposition has one. */
  function TerminalEffect(previous: Streak, next: Streak): Option<Effect> {
    if previous.disposition == next.disposition || EffectOf(next.disposition).None? then None
    else Some(Effect(EffectOf(next.disposition).value, next.candidate, next.band, next.contributions))
  }

  /** `PlanHealGovernance`. */
  ghost function PlanHeal(p: Snapshot, f: AcceptedFact): Result<Decision, PlanError> {
    if !SnapshotOk(p) then Err(SnapshotInvalid)
    else if !ExistingAgrees(p.existing, p.streak) then Err(EffectConflict)
    else if !FactOk(f) then Err(FactInvalid)
    else match Mapped(f, p)
      case None => Err(FactInvalid)
      case Some(o) =>
        match Observe(p.streak, o)
        case Err(e) => Err(Refused(e))
        case Ok(next) =>
          Ok(Decision(p.key, f.factId, f.sequence, p.revision, next, TerminalEffect(p.streak, next)))
  }

  // ----- one plan -----

  lemma StaleStays(s: Streak, o: Observation)
    requires s.disposition.Stale? || s.disposition.Rejected?
    requires Observe(s, o).Ok? && o.target == s.target && o.base == s.base
    ensures Observe(s, o).value.disposition == s.disposition && Observe(s, o).value.contributions == s.contributions
  {
    hide Streak.Valid, Observation.Valid, Admissible;
  }

  lemma MappedKeepsKey(p: Snapshot, f: AcceptedFact)
    requires Mapped(f, p).Some?
    ensures Mapped(f, p).value.target == p.key.target && Mapped(f, p).value.base == p.key.base
  {
    hide CanonicalIdentity;
  }

  /** Under one key a stale or rejected streak is final: no observation of that key can restart it. */
  lemma StaleIsFinal(p: Snapshot, f: AcceptedFact)
    requires PlanHeal(p, f).Ok? && (p.streak.disposition.Stale? || p.streak.disposition.Rejected?)
    ensures PlanHeal(p, f).value.next.disposition == p.streak.disposition
    ensures PlanHeal(p, f).value.effect == None
    ensures PlanHeal(p, f).value.next.contributions == p.streak.contributions
  {
    MappedKeepsKey(p, f);
    hide Streak.Valid, CanonicalStreak, CanonicalIdentity, ExistingAgrees, StatusMatches, FactOk, Mapped, Observe;
    StaleStays(p.streak, Mapped(f, p).value);
  }

  /** A published streak stays published, whatever is planned on it. */
  lemma PublishedStays(s: Streak, o: Observation)
    requires s.disposition.AutoPublish? && Observe(s, o).Ok?
    ensures Observe(s, o).value.disposition.AutoPublish?
    ensures Observe(s, o).value.contributions == s.contributions
  {
    hide Streak.Valid, Observation.Valid;
  }

  /** When a planned effect is emitted, it is the first one its disposition stands for, and it would be accepted. */
  lemma EffectAgrees(p: Snapshot, f: AcceptedFact)
    requires PlanHeal(p, f).Ok? && PlanHeal(p, f).value.effect.Some?
    ensures var d := PlanHeal(p, f).value;
            && d.next.disposition != p.streak.disposition
            && ExistingAgrees(Some(StoredEffect(d.effect.value, "", "")), d.next)
  {
    hide SnapshotOk, FactOk, Mapped, Observe;
  }

  // ----- whole runs of one key -----

  /** A plan for an accepted fact, with all that may have changed around the streak, or a rejection in review. */
  datatype Turn =
    | Planned(currentVersion: string, revision: nat, status: Option<CandidateStatus>,
        existing: Option<StoredEffect>, fact: AcceptedFact)
    | Reviewed(sequence: nat)

  function At(key: Key, s: Streak, turn: Turn): Snapshot
    requires turn.Planned?
  {
    Snapshot(key, turn.currentVersion, turn.revision, s, turn.status, turn.existing)
  }

  /** The streak after one turn; what is refused changes nothing. */
  ghost function Turned(key: Key, s: Streak, turn: Turn): Streak {
    match turn
    case Planned(_, _, _, _, fact) =>
      var r := PlanHeal(At(key, s, turn), fact);
      if r.Ok? then r.value.next else s
    case Reviewed(sequence) =>
      var r := Reject(s, sequence);
      if r.Ok? then r.value else s
  }

  ghost function After(key: Key, s: Streak, turns: seq<Turn>): Streak {
    if turns == [] then s else Turned(key, After(key, s, turns[..|turns| - 1]), turns[|turns| - 1])
  }

  predicate Publishes(d: Decision) {
    d.effect.Some? && d.effect.value.kind.PublishEffect?
  }

  /** The turn plans for the candidate to be published. */
  ghost predicate TurnPublishes(key: Key, s: Streak, turn: Turn) {
    turn.Planned? && PlanHeal(At(key, s, turn), turn.fact).Ok? && Publishes(PlanHeal(At(key, s, turn), turn.fact).value)
  }

  /** How often the turns did so. */
  ghost function Publications(key: Key, s: Streak, turns: seq<Turn>): nat {
    if turns == [] then 0 else
    var before, turn := After(key, s, turns[..|turns| - 1]), turns[|turns| - 1];
    Publications(key, s, turns[..|turns| - 1]) + (if TurnPublishes(key, before, turn) then 1 else 0)
  }

  /** One plan publishes exactly when it brings the streak to AUTO PUBLISH, which is never left again. */
  lemma PublishStep(p: Snapshot, f: AcceptedFact)
    requires PlanHeal(p, f).Ok?
    ensures var d := PlanHeal(p, f).value;
            && (Publishes(d) <==> d.next.disposition.AutoPublish? && !p.streak.disposition.AutoPublish?)
            && (p.streak.disposition.AutoPublish? ==> d.next.disposition.AutoPublish?)
  {
    hide SnapshotOk, ExistingAgrees, FactOk, Mapped, Observe;
    if p.streak.disposition.AutoPublish? { PublishedStays(p.streak, Mapped(f, p).value); }
  }

  /** So does one turn: a review can only reject what still awaits approval. */
  lemma TurnStep(key: Key, s: Streak, turn: Turn)
    ensures TurnPublishes(key, s, turn) <==> Turned(key, s, turn).disposition.AutoPublish? && !s.disposition.AutoPublish?
    ensures s.disposition.AutoPublish? ==> Turned(key, s, turn).disposition.AutoPublish?
  {
    if turn.Planned? && PlanHeal(At(key, s, turn), turn.fact).Ok? { PublishStep(At(key, s, turn), turn.fact); }
    hide PlanHeal, Publishes, Streak.Valid;
  }

  /** Across any run, with replays, refusals and rejections, a candidate is published at most once. */
  lemma {:induction false} PublishedAtMostOnce(key: Key, s: Streak, turns: seq<Turn>)
    ensures s.disposition.AutoPublish? ==> After(key, s, turns).disposition.AutoPublish?
    ensures Publications(key, s, turns)
         == if After(key, s, turns).disposition.AutoPublish? && !s.disposition.AutoPublish? then 1 else 0
  {
    if turns != [] {
      PublishedAtMostOnce(key, s, turns[..|turns| - 1]);
      TurnStep(key, After(key, s, turns[..|turns| - 1]), turns[|turns| - 1]);
      hide Turned, TurnPublishes;
    }
  }

  /** Once rejected in review, a candidate is never published, whatever is planned or reviewed later. */
  lemma {:induction false} RejectedIsNeverPublished(key: Key, s: Streak, turns: seq<Turn>)
    requires s.disposition.Rejected?
    ensures After(key, s, turns).disposition.Rejected? && Publications(key, s, turns) == 0
  {
    if turns != [] {
      RejectedIsNeverPublished(key, s, turns[..|turns| - 1]);
      RejectedStays(key, After(key, s, turns[..|turns| - 1]), turns[|turns| - 1]);
      hide Turned, TurnPublishes;
    }
  }

  lemma RejectedStays(key: Key, s: Streak, turn: Turn)
    requires s.disposition.Rejected?
    ensures Turned(key, s, turn).disposition.Rejected? && !TurnPublishes(key, s, turn)
  {
    if turn.Planned? && PlanHeal(At(key, s, turn), turn.fact).Ok? { StaleIsFinal(At(key, s, turn), turn.fact); }
    hide PlanHeal, Streak.Valid;
  }

  /** After an unreadable successor, every further plan and review of that streak is refused. */
  lemma {:induction false} UnreadableForGood(key: Key, s: Streak, turns: seq<Turn>)
    requires !s.Valid()
    ensures After(key, s, turns) == s
  {
    if turns != [] {
      UnreadableForGood(key, s, turns[..|turns| - 1]);
      hide Streak.Valid, ExistingAgrees, FactOk, Mapped, Observe;
    }
  }

  /** A plan leaves a sound streak readable exactly when it is not the first failure of a current version. */
  lemma PlanKeepsReadable(p: Snapshot, f: AcceptedFact)
    requires Sound(p.streak) && PlanHeal(p, f).Ok?
    ensures PlanHeal(p, f).value.next.Valid()
       <==> !(p.streak.Empty() && p.currentVersion == p.key.base && f.kind.ObservationFact?
              && (!f.observation.value.succeeded || f.observation.value.band.DecisionUnknown?))
  {
    var o := Mapped(f, p).value;
    ObserveKeepsSound(p.streak, o);
    assert p.streak.Empty() ==> p.streak.Provenance() == [];
    hide SnapshotOk, ExistingAgrees, FactOk, Sound, Admissible;
  }
}

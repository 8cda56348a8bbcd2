/**
 What a planned effect rests on, in terms of the accepted facts themselves: their
 kinds, payloads and versions. Publishing and asking for approval each take three
 facts of their own band, and three such facts bring the effect about.
 */
module HealEffects {
  import opened Wrappers
  import opened Text
  import opened HealStreaks
  import opened HealGovernance

  // ----- turns as streak inputs -----

  /** What a turn puts to the streak; a plan that is refused puts nothing. */
  ghost function InputOf(key: Key, s: Streak, turn: Turn): seq<Input> {
    match turn
    case Reviewed(sequence) => [Denied(sequence)]
    case Planned(_, _, _, _, fact) =>
      if PlanHeal(At(key, s, turn), fact).Ok? then [Observed(Mapped(fact, At(key, s, turn)).value)] else []
  }

  ghost function Inputs(key: Key, turns: seq<Turn>): seq<Input> {
    if turns == [] then [] else
    var init, last := turns[..|turns| - 1], turns[|turns| - 1];
    Inputs(key, init) + InputOf(key, After(key, EMPTY, init), last)
  }

  /** The observation an input has the streak accept for the first time. */
  ghost function Takes(s: Streak, input: Input): seq<Observation> {
    if input.Observed? && Observe(s, input.observation).Ok? && input.observation.fact !in s.Provenance()
    then [input.observation] else []
  }

  lemma RunNext(s: Streak, inputs: seq<Input>, input: Input)
    ensures Run(s, inputs + [input]) == Step(Run(s, inputs), input)
    ensures Accepted(s, inputs + [input]) == Accepted(s, inputs) + Takes(Run(s, inputs), input)
  {
    assert (inputs + [input])[..|inputs|] == inputs;
    hide Step, Observe;
  }

  /** Turns and their inputs lead to the same streak. */
  lemma {:induction false} RunsAlike(key: Key, turns: seq<Turn>)
    ensures Run(EMPTY, Inputs(key, turns)) == After(key, EMPTY, turns)
  {
    if turns != [] {
      var init, last := turns[..|turns| - 1], turns[|turns| - 1];
      RunsAlike(key, init);
      var before := After(key, EMPTY, init);
      TurnIsStep(key, before, last);
      hide Step, InputOf, Turned, Accepted;
      var input := InputOf(key, before, last);
      if input == [] {
        assert Inputs(key, turns) == Inputs(key, init);
      } else {
        RunNext(EMPTY, Inputs(key, init), input[0]);
        assert Inputs(key, turns) == Inputs(key, init) + [input[0]];
      }
    }
  }

  lemma TurnIsStep(key: Key, s: Streak, turn: Turn)
    ensures var input := InputOf(key, s, turn);
            || (input == [] && Turned(key, s, turn) == s)
            || (|input| == 1 && Turned(key, s, turn) == Step(s, input[0]))
  {
    hide SnapshotOk, ExistingAgrees, FactOk, Mapped, Observe, Reject;
  }

  /** The turn plans a fact that the streak has not consumed before, and the plan is accepted. */
  ghost predicate Counts(key: Key, s: Streak, turn: Turn) {
    && turn.Planned? && PlanHeal(At(key, s, turn), turn.fact).Ok?
    && Mapped(turn.fact, At(key, s, turn)).value.fact !in s.Provenance()
  }

  ghost predicate CountsIn(key: Key, turns: seq<Turn>, m: nat)
    requires m < |turns|
  {
    Counts(key, After(key, EMPTY, turns[..m]), turns[m])
  }

  /** The turns that count, in order. */
  ghost function Counting(key: Key, turns: seq<Turn>): (at: seq<nat>)
    ensures forall x | 0 <= x < |at| :: at[x] < |turns|
  {
    if turns == [] then [] else
    var init := turns[..|turns| - 1];
    Counting(key, init) + (if Counts(key, After(key, EMPTY, init), turns[|init|]) then [|init|] else [])
  }

  lemma {:induction false} CountingHolds(key: Key, turns: seq<Turn>, m: nat)
    requires m < |turns|
    ensures m in Counting(key, turns) <==> CountsIn(key, turns, m)
  {
    hide Counts;
    var init := turns[..|turns| - 1];
    if m < |init| {
      CountingHolds(key, init, m);
      assert init[..m] == turns[..m];
    }
  }

  /** What the fact of a turn stands for; the streak has no part in it. */
  function MappedAt(key: Key, turn: Turn): Option<Observation>
    requires turn.Planned?
  {
    Mapped(turn.fact, At(key, EMPTY, turn))
  }

  lemma MappingIgnoresStreak(key: Key, s: Streak, turn: Turn)
    requires turn.Planned?
    ensures Mapped(turn.fact, At(key, s, turn)) == MappedAt(key, turn)
  {
    hide PayloadOk, ResetOk, BandOf;
  }

  /** The observations accepted are those of the turns that count. */
  ghost predicate Told(key: Key, turns: seq<Turn>, at: seq<nat>, accepted: seq<Observation>) {
    && |at| == |accepted|
    && (forall x | 0 <= x < |at| ::
          at[x] < |turns| && turns[at[x]].Planned? && MappedAt(key, turns[at[x]]) == Some(accepted[x]))
    && (forall x, y | 0 <= x < y < |at| :: at[x] < at[y])
  }

  lemma ToldMore(key: Key, turns: seq<Turn>, turn: Turn, at: seq<nat>, accepted: seq<Observation>)
    requires Told(key, turns, at, accepted)
    ensures Told(key, turns + [turn], at, accepted)
    ensures turn.Planned? && MappedAt(key, turn).Some? ==>
      Told(key, turns + [turn], at + [|turns|], accepted + [MappedAt(key, turn).value])
  {
    hide MappedAt;
  }

  lemma CountingNext(key: Key, init: seq<Turn>, last: Turn)
    ensures Counting(key, init + [last])
         == Counting(key, init) + (if Counts(key, After(key, EMPTY, init), last) then [|init|] else [])
  {
    assert (init + [last])[..|init|] == init;
    hide Counts, After;
  }

  /** What a turn brings, if it counts, is told by that turn. */
  lemma BringsTold(key: Key, s: Streak, turn: Turn)
    ensures if Counts(key, s, turn) then turn.Planned? && MappedAt(key, turn).Some? && Brings(key, s, turn) == [MappedAt(key, turn).value]
            else Brings(key, s, turn) == []
  {
    if Counts(key, s, turn) { CountsIsMapped(key, s, turn); }
    hide Counts, MappedAt;
  }

  lemma NothingTold(key: Key)
    ensures Told(key, [], Counting(key, []), Accepted(EMPTY, Inputs(key, [])))
  {
  }

  lemma {:induction false} CountingTells(key: Key, turns: seq<Turn>)
    ensures Told(key, turns, Counting(key, turns), Accepted(EMPTY, Inputs(key, turns)))
  {
    hide *;
    if turns == [] {
      NothingTold(key);
    } else {
      var init, last := turns[..|turns| - 1], turns[|turns| - 1];
      var before, at, accepted := After(key, EMPTY, init), Counting(key, init), Accepted(EMPTY, Inputs(key, init));
      assert turns == init + [last];
      CountingTells(key, init);
      RunsAlike(key, init);
      NextCounts(key, init, last);
      CountingNext(key, init, last);
      BringsTold(key, before, last);
      ToldMore(key, init, last, at, accepted);
      if !Counts(key, before, last) { assert at + [] == at && accepted + [] == accepted; }
    }
  }

  lemma CountsIsMapped(key: Key, s: Streak, turn: Turn)
    requires Counts(key, s, turn)
    ensures turn.Planned? && MappedAt(key, turn).Some?
  {
    MappingIgnoresStreak(key, s, turn);
    hide SnapshotOk, ExistingAgrees, FactOk, Mapped, Observe;
  }

  /** The observation a turn brings, if it counts. */
  ghost function Brings(key: Key, s: Streak, turn: Turn): seq<Observation> {
    if turn.Planned? && Counts(key, s, turn) && MappedAt(key, turn).Some? then [MappedAt(key, turn).value] else []
  }

  /** One more turn accepts one more observation, if it counts. */
  lemma NextCounts(key: Key, init: seq<Turn>, last: Turn)
    requires Run(EMPTY, Inputs(key, init)) == After(key, EMPTY, init)
    ensures Accepted(EMPTY, Inputs(key, init + [last]))
         == Accepted(EMPTY, Inputs(key, init)) + Brings(key, After(key, EMPTY, init), last)
  {
    hide *;
    var before, inputs := After(key, EMPTY, init), Inputs(key, init);
    var input := InputOf(key, before, last);
    InputsNext(key, init, last);
    InputBrings(key, before, last);
    if input == [] {
      assert inputs + input == inputs && Accepted(EMPTY, inputs) + [] == Accepted(EMPTY, inputs);
    } else {
      assert input == [input[0]];
      RunNext(EMPTY, inputs, input[0]);
    }
  }

  lemma InputsNext(key: Key, init: seq<Turn>, last: Turn)
    ensures Inputs(key, init + [last]) == Inputs(key, init) + InputOf(key, After(key, EMPTY, init), last)
  {
    hide InputOf, After;
    assert (init + [last])[..|init|] == init;
  }

  /** What a turn puts to the streak brings what the turn brings. */
  lemma InputBrings(key: Key, s: Streak, turn: Turn)
    ensures var input := InputOf(key, s, turn);
            || (input == [] && Brings(key, s, turn) == [])
            || (|input| == 1 && Takes(s, input[0]) == Brings(key, s, turn))
  {
    if turn.Planned? { MappingIgnoresStreak(key, s, turn); }
    hide PlanHeal, Mapped, MappedAt, Observe, Streak.Provenance;
    if turn.Planned? && PlanHeal(At(key, s, turn), turn.fact).Ok? { PlanIsObserved(key, s, turn); }
  }

  lemma PlanIsObserved(key: Key, s: Streak, turn: Turn)
    requires turn.Planned? && PlanHeal(At(key, s, turn), turn.fact).Ok?
    ensures var p := At(key, s, turn);
            && Mapped(turn.fact, p).Some? && Observe(s, Mapped(turn.fact, p).value).Ok?
            && PlanHeal(p, turn.fact).value.next == Observe(s, Mapped(turn.fact, p).value).value
            && PlanHeal(p, turn.fact).value.effect == TerminalEffect(s, PlanHeal(p, turn.fact).value.next)
  {
    hide SnapshotOk, ExistingAgrees, FactOk, Mapped, Observe, TerminalEffect;
  }

  // ----- what effects rest on -----

  /** The fact of the turn is a successful heal of the candidate, decided in this band, of the version that is current. */
  predicate Heals(key: Key, turn: Turn, candidate: string, band: EvidenceBand) {
    && turn.Planned? && turn.currentVersion == key.base
    && turn.fact.kind.ObservationFact? && turn.fact.observation.Some?
    && var o := turn.fact.observation.value;
       && o.succeeded && o.candidate == candidate && o.band == band
       && o.target == key.target && o.base == key.base && o.instanceId == turn.fact.instanceId
  }

  /** The fact must end a count: the version has moved on, the old selector works again, or another heal succeeded. */
  predicate SpeaksAgainst(key: Key, turn: Turn, candidate: string, band: EvidenceBand) {
    turn.Planned? &&
    (turn.currentVersion != key.base || turn.fact.kind.ResetFact? ||
     (turn.fact.kind.ObservationFact? && turn.fact.observation.Some?
      && var o := turn.fact.observation.value;
         o.succeeded && (o.band.DecisionApplied? || o.band.DecisionBelowCap?) && (o.candidate != candidate || o.band != band)))
  }

  /** How the fact of a turn is remembered. */
  function Remembered(turn: Turn): Fact
    requires turn.Planned? && turn.fact.observation.Some?
  {
    var f, o := turn.fact, turn.fact.observation.value;
    Fact(f.factId, f.commitId, f.instanceId, o.entryId, o.stepExecutionId, f.sequence)
  }

  /** The effect a turn has planned. */
  ghost function Emits(key: Key, s: Streak, turn: Turn): Option<Effect> {
    if turn.Planned? && PlanHeal(At(key, s, turn), turn.fact).Ok? then PlanHeal(At(key, s, turn), turn.fact).value.effect
    else None
  }

  ghost function EmitsIn(key: Key, turns: seq<Turn>, n: nat): Option<Effect>
    requires n < |turns|
  {
    Emits(key, After(key, EMPTY, turns[..n]), turns[n])
  }

  function BandFor(kind: EffectKind): EvidenceBand {
    if kind.PublishEffect? then DecisionApplied else DecisionBelowCap
  }

  /**
   The effect of turn `n` rests on the facts of turns `i`, `j` and `n`: three heals of
   its candidate in its band, from three instances, and of all the facts accepted
   from the first to the last no other such heal and none against it.
   */
  ghost predicate RestsOn(key: Key, turns: seq<Turn>, i: nat, j: nat, n: nat, effect: Effect, band: EvidenceBand) {
    && i < j < n < |turns|
    && Heals(key, turns[i], effect.candidate, band) && Heals(key, turns[j], effect.candidate, band)
    && Heals(key, turns[n], effect.candidate, band)
    && effect.contributions == [Remembered(turns[i]), Remembered(turns[j]), Remembered(turns[n])]
    && turns[i].fact.instanceId != turns[j].fact.instanceId && turns[j].fact.instanceId != turns[n].fact.instanceId
    && turns[i].fact.instanceId != turns[n].fact.instanceId
    && forall m: nat | i <= m <= n && CountsIn(key, turns, m) ::
         && !SpeaksAgainst(key, turns[m], effect.candidate, band)
         && (Heals(key, turns[m], effect.candidate, band) ==> m == i || m == j || m == n)
  }

  /** A streak of this key that counts the candidate in the band that the evidence band stands for. */
  predicate CountsFor(key: Key, s: Streak, candidate: string, band: EvidenceBand) {
    && s.target == key.target && s.base == key.base && s.candidate == candidate
    && ((s.band.Applied? && band.DecisionApplied?) || (s.band.BelowCap? && band.DecisionBelowCap?))
  }

  lemma MappedMeans(key: Key, turn: Turn, o: Observation, s: Streak, band: EvidenceBand)
    requires turn.Planned? && MappedAt(key, turn) == Some(o) && CountsFor(key, s, s.candidate, band)
    ensures Qualifies(o, s) <==> Heals(key, turn, s.candidate, band)
    ensures Interrupts(o, s) <==> SpeaksAgainst(key, turn, s.candidate, band)
    ensures Qualifies(o, s) ==> o.fact == Remembered(turn)
    ensures o.target == key.target && o.base == key.base
  {
    hide CanonicalIdentity;
  }

  /** What is known of a plan that publishes or asks for approval. */
  lemma EmissionIs(key: Key, s: Streak, turn: Turn)
    requires Emits(key, s, turn).Some?
    requires Emits(key, s, turn).value.kind.PublishEffect? || Emits(key, s, turn).value.kind.ApprovalEffect?
    ensures turn.Planned? && PlanHeal(At(key, s, turn), turn.fact).Ok? && Mapped(turn.fact, At(key, s, turn)).Some?
    ensures var next, effect, o := Turned(key, s, turn), Emits(key, s, turn).value, Mapped(turn.fact, At(key, s, turn)).value;
            && Observe(s, o) == Ok(next) && next.disposition != s.disposition
            && effect == Effect(effect.kind, next.candidate, next.band, next.contributions)
            && (if effect.kind.PublishEffect? then next.disposition.AutoPublish? else next.disposition.AwaitApproval?)
  {
    hide PlanHeal, Mapped, Observe;
    PlanIsObserved(key, s, turn);
  }

  lemma ObservedIsValid(s: Streak, o: Observation)
    requires Observe(s, o).Ok?
    ensures s.Valid() && o.Valid()
  {
    hide Streak.Valid, Observation.Valid, Advance, Scanned;
  }

  lemma NewCounts(key: Key, s: Streak, turn: Turn)
    requires turn.Planned? && PlanHeal(At(key, s, turn), turn.fact).Ok? && Mapped(turn.fact, At(key, s, turn)).Some?
    requires Mapped(turn.fact, At(key, s, turn)).value.fact !in s.Provenance()
    ensures Counts(key, s, turn)
  {
    hide PlanHeal, Mapped, Streak.Provenance;
  }

  /** A turn whose plan brings about a terminal effect matures the streak, at just that turn. */
  lemma EmissionMatures(key: Key, s: Streak, turn: Turn)
    requires Emits(key, s, turn).Some?
    requires Emits(key, s, turn).value.kind.PublishEffect? || Emits(key, s, turn).value.kind.ApprovalEffect?
    ensures turn.Planned? && MappedAt(key, turn).Some? && Counts(key, s, turn)
    ensures var next, effect, o := Turned(key, s, turn), Emits(key, s, turn).value, MappedAt(key, turn).value;
            && s.Valid() && o.Valid() && Observe(s, o).Ok? && Observe(s, o).value == next && !Stuck(s, o)
            && effect == Effect(effect.kind, next.candidate, next.band, next.contributions)
            && (if effect.kind.PublishEffect? then next.disposition.AutoPublish? else next.disposition.AwaitApproval?)
            && |next.contributions| > 0 && next.contributions[|next.contributions| - 1] == o.fact
  {
    hide *;
    EmissionIs(key, s, turn);
    MappingIgnoresStreak(key, s, turn);
    var o := MappedAt(key, turn).value;
    ObservedIsValid(s, o);
    MaturedJustNow(s, o);
    NewCounts(key, s, turn);
  }

  /** What a run that ends with an emission has come to. */
  lemma EmissionIsReached(key: Key, init: seq<Turn>, last: Turn)
    requires Emits(key, After(key, EMPTY, init), last).Some?
    requires var kind := Emits(key, After(key, EMPTY, init), last).value.kind; kind.PublishEffect? || kind.ApprovalEffect?
    ensures last.Planned? && MappedAt(key, last).Some?
    ensures var turns, o := init + [last], MappedAt(key, last).value;
            var effect, next := Emits(key, After(key, EMPTY, init), last).value, Run(EMPTY, Inputs(key, turns));
            && next.Valid()
            && effect == Effect(effect.kind, next.candidate, next.band, next.contributions)
            && (if effect.kind.PublishEffect? then next.disposition.AutoPublish? else next.disposition.AwaitApproval?)
            && |next.contributions| > 0 && next.contributions[|next.contributions| - 1] == o.fact
            && Accepted(EMPTY, Inputs(key, turns)) == Accepted(EMPTY, Inputs(key, init)) + [o]
            && Counting(key, turns) == Counting(key, init) + [|init|]
  {
    hide *;
    var turns, before := init + [last], After(key, EMPTY, init);
    RunsAlike(key, init);
    RunsAlike(key, turns);
    AfterNext(key, init, last);
    EmissionMatures(key, before, last);
    RunIsEarned(Inputs(key, init));
    ObserveKeepsSound(before, MappedAt(key, last).value);
    NextCounts(key, init, last);
    BringsTold(key, before, last);
    CountingNext(key, init, last);
  }

  lemma AfterNext(key: Key, init: seq<Turn>, last: Turn)
    ensures After(key, EMPTY, init + [last]) == Turned(key, After(key, EMPTY, init), last)
  {
    assert (init + [last])[..|init|] == init;
    hide Turned;
  }

  /** The accepted observations that stand at three places of a matured streak are those of three turns. */
  ghost predicate Placed(key: Key, turns: seq<Turn>, at: seq<nat>, accepted: seq<Observation>, s: Streak,
    x: nat, y: nat, z: nat)
  {
    Told(key, turns, at, accepted) && MaturedBy(s, accepted, x, y, z)
  }

  /** A fact between the first and the last of the three is that of a turn between their turns. */
  lemma BetweenIsTold(key: Key, turns: seq<Turn>, at: seq<nat>, accepted: seq<Observation>, s: Streak,
    x: nat, y: nat, z: nat, band: EvidenceBand, w: nat)
    requires Placed(key, turns, at, accepted, s, x, y, z) && CountsFor(key, s, s.candidate, band)
    requires w < |at| && at[x] <= at[w] <= at[z]
    ensures !SpeaksAgainst(key, turns[at[w]], s.candidate, band)
    ensures Heals(key, turns[at[w]], s.candidate, band) <==> w == x || w == y || w == z
    ensures w == x || w == y || w == z ==> accepted[w].fact == Remembered(turns[at[w]])
  {
    assert x <= w <= z;
    MappedMeans(key, turns[at[w]], accepted[w], s, band);
    hide SpeaksAgainst, Heals, Qualifies, Interrupts, MappedAt, CountsFor, Remembered;
  }

  /** The streak counts for the key and the candidate its effect names. */
  lemma CountsForKey(key: Key, turns: seq<Turn>, at: seq<nat>, accepted: seq<Observation>, s: Streak,
    x: nat, y: nat, z: nat, band: EvidenceBand)
    requires Placed(key, turns, at, accepted, s, x, y, z)
    requires (s.band.Applied? && band.DecisionApplied?) || (s.band.BelowCap? && band.DecisionBelowCap?)
    ensures CountsFor(key, s, s.candidate, band)
  {
    assert Qualifies(accepted[x], s) && turns[at[x]].Planned? && MappedAt(key, turns[at[x]]) == Some(accepted[x]);
    MappingIgnoresStreak(key, EMPTY, turns[at[x]]);
    MappedKeepsKey(At(key, EMPTY, turns[at[x]]), turns[at[x]].fact);
    hide Mapped;
  }

  /** Three placed observations, the last of them that of the last turn, are what the effect rests on. */
  lemma PlacedRests(key: Key, turns: seq<Turn>, at: seq<nat>, accepted: seq<Observation>, s: Streak,
    x: nat, y: nat, z: nat, effect: Effect, band: EvidenceBand)
    requires Placed(key, turns, at, accepted, s, x, y, z) && z < |at| && at[z] == |turns| - 1
    requires CountsFor(key, s, s.candidate, band)
    requires effect.candidate == s.candidate && effect.contributions == s.contributions
    requires forall m: nat | m < |turns| && CountsIn(key, turns, m) :: m in at
    ensures RestsOn(key, turns, at[x], at[y], at[z], effect, band)
  {
    BetweenIsTold(key, turns, at, accepted, s, x, y, z, band, x);
    BetweenIsTold(key, turns, at, accepted, s, x, y, z, band, y);
    BetweenIsTold(key, turns, at, accepted, s, x, y, z, band, z);
    forall m: nat | at[x] <= m <= at[z] && CountsIn(key, turns, m)
      ensures !SpeaksAgainst(key, turns[m], effect.candidate, band)
      ensures Heals(key, turns[m], effect.candidate, band) ==> m == at[x] || m == at[y] || m == at[z]
    {
      var w :| 0 <= w < |at| && at[w] == m;
      BetweenIsTold(key, turns, at, accepted, s, x, y, z, band, w);
    }
    var facts := s.contributions;
    assert facts == [accepted[x].fact, accepted[y].fact, accepted[z].fact];
    hide SpeaksAgainst, CountsIn, CountsFor, MappedAt, Qualifies, Interrupts;
  }

  /** The last contribution stands at the last place: no fact is accepted twice. */
  lemma LastIsLast(s: Streak, accepted: seq<Observation>, x: nat, y: nat, z: nat, last: nat, o: Observation)
    requires MaturedBy(s, accepted, x, y, z) && Growing(accepted, last)
    requires |accepted| > 0 && accepted[|accepted| - 1] == o
    requires |s.contributions| > 0 && s.contributions[|s.contributions| - 1] == o.fact
    ensures z == |accepted| - 1
  {
    assert accepted[z].fact == o.fact;
    hide Qualifies, Interrupts;
  }

  lemma BandFits(kind: EffectKind, band: Band)
    requires kind.PublishEffect? || kind.ApprovalEffect?
    requires if kind.PublishEffect? then band.Applied? else band.BelowCap?
    ensures (band.Applied? && BandFor(kind).DecisionApplied?) || (band.BelowCap? && BandFor(kind).DecisionBelowCap?)
  {
  }

  lemma ArePlaced(key: Key, turns: seq<Turn>, at: seq<nat>, accepted: seq<Observation>, s: Streak, x: nat, y: nat, z: nat)
    requires Told(key, turns, at, accepted) && MaturedBy(s, accepted, x, y, z)
    ensures Placed(key, turns, at, accepted, s, x, y, z) && |at| == |accepted| && x < y < z < |accepted|
  {
  }

  /** The turn that has an effect emit completes what the effect rests on. */
  lemma LastTurnRests(key: Key, init: seq<Turn>, last: Turn) returns (i: nat, j: nat)
    requires Emits(key, After(key, EMPTY, init), last).Some?
    requires var kind := Emits(key, After(key, EMPTY, init), last).value.kind; kind.PublishEffect? || kind.ApprovalEffect?
    ensures var effect := Emits(key, After(key, EMPTY, init), last).value;
            RestsOn(key, init + [last], i, j, |init|, effect, BandFor(effect.kind))
  {
    hide *;
    var turns, effect := init + [last], Emits(key, After(key, EMPTY, init), last).value;
    var inputs := Inputs(key, turns);
    var s, at, accepted := Run(EMPTY, inputs), Counting(key, turns), Accepted(EMPTY, inputs);
    EmissionIsReached(key, init, last);
    var x, y, z := MaturityIsEarned(inputs);
    CountingTells(key, turns);
    ArePlaced(key, turns, at, accepted, s, x, y, z);
    BandFits(effect.kind, s.band);
    CountsForKey(key, turns, at, accepted, s, x, y, z, BandFor(effect.kind));
    AcceptedGrow(inputs);
    LastIsLast(s, accepted, x, y, z, s.lastSequence, MappedAt(key, last).value);
    forall m: nat | m < |turns| && CountsIn(key, turns, m)
      ensures m in at
    {
      CountingHolds(key, turns, m);
    }
    PlacedRests(key, turns, at, accepted, s, x, y, z, effect, BandFor(effect.kind));
    i, j := at[x], at[y];
  }

  lemma EmitsInIs(key: Key, turns: seq<Turn>, n: nat)
    requires n < |turns|
    ensures EmitsIn(key, turns, n) == Emits(key, After(key, EMPTY, turns[..n]), turns[n])
  {
    hide Emits, After;
  }

  /**
   From nothing, a candidate is published only on three APPLIED heals of it, and put
   up for approval only on three BELOW CAP ones.
   */
  lemma EffectRestsOnFacts(key: Key, turns: seq<Turn>, n: nat) returns (i: nat, j: nat)
    requires n < |turns| && EmitsIn(key, turns, n).Some?
    requires EmitsIn(key, turns, n).value.kind.PublishEffect? || EmitsIn(key, turns, n).value.kind.ApprovalEffect?
    ensures var effect := EmitsIn(key, turns, n).value;
            RestsOn(key, turns[..n + 1], i, j, n, effect, BandFor(effect.kind))
  {
    hide *;
    EmitsInIs(key, turns, n);
    assert turns[..n + 1] == turns[..n] + [turns[n]];
    i, j := LastTurnRests(key, turns[..n], turns[n]);
  }

  // ----- three heals have their effect -----

  /** A heal of the current version whose fact and payload are in order and belong together. */
  predicate Proper(key: Key, turn: Turn, candidate: string, band: EvidenceBand) {
    && Heals(key, turn, candidate, band) && turn.revision != 0
    && turn.fact.reset.None? && turn.fact.sequence != 0
    && CanonicalIdentity(turn.fact.factId) && CanonicalIdentity(turn.fact.commitId) && CanonicalIdentity(turn.fact.instanceId)
    && var o := turn.fact.observation.value;
       && o.id == turn.fact.factId && 0.0 <= o.confidence <= 1.0
       && CanonicalIdentity(o.entryId) && CanonicalIdentity(o.stepExecutionId)
  }

  /**
   The streak holds nothing, was reset, counts another candidate or band, or came to
   its end on another version of the element: a heal can start it anew.
   */
  predicate CanStart(s: Streak, key: Key, candidate: string, band: Band) {
    || s.Empty() || s.disposition.Reset?
    || ((s.disposition.Stale? || s.disposition.Rejected?) && s.target == key.target && s.base != key.base)
    || (s.observing && s.target == key.target && s.base == key.base && !(s.candidate == candidate && s.band == band))
  }

  /** A count of one candidate in one band, with these facts and no others. */
  function Count(key: Key, candidate: string, band: Band, facts: seq<Fact>, disposition: Disposition): Streak
    requires facts != []
  {
    Streak(key.target, key.base, candidate, band, facts, facts, facts[|facts| - 1].sequence, disposition.Observing?, disposition)
  }

  function Healed(key: Key, candidate: string, band: Band, fact: Fact): Observation {
    Observation(fact, key.target, key.base, candidate, band, Succeeded, true)
  }

  function Ending(band: Band): Disposition {
    if band.Applied? then AutoPublish else AwaitApproval
  }

  /** A success starts a streak that can be started. */
  lemma HealStarts(s: Streak, key: Key, candidate: string, band: Band, fact: Fact)
    requires s.Valid() && CanStart(s, key, candidate, band) && (band.Applied? || band.BelowCap?)
    requires fact.Valid() && !Blank(key.target) && !Blank(key.base) && !Blank(candidate)
    requires fact.sequence > s.lastSequence && forall f | f in s.Provenance() :: !f.Clashes(fact)
    ensures Observe(s, Healed(key, candidate, band, fact)) == Ok(Count(key, candidate, band, [fact], Observing))
  {
    StreakShape(s);
    ScannedMeaning(s.Provenance(), fact);
    hide Blank, Admissible, Streak.Valid;
  }

  /** A success on a count of less than two goes on, and the third ends it. */
  lemma HealCounts(key: Key, candidate: string, band: Band, facts: seq<Fact>, fact: Fact)
    requires facts != [] && Count(key, candidate, band, facts, Observing).Valid() && (band.Applied? || band.BelowCap?)
    requires Admissible(facts + [fact]) && !Blank(key.target) && !Blank(key.base) && !Blank(candidate)
    ensures Observe(Count(key, candidate, band, facts, Observing), Healed(key, candidate, band, fact))
         == Ok(Count(key, candidate, band, facts + [fact], if |facts| < 2 then Observing else Ending(band)))
  {
    hide Blank, Admissible, Streak.Valid, Scanned, Advance;
    var s, o := Count(key, candidate, band, facts, Observing), Healed(key, candidate, band, fact);
    LastComesLater(facts, fact);
    ScannedMeaning(facts, fact);
    HealAdvances(key, candidate, band, facts, fact);
    assert s.Provenance() == facts && o.fact == fact && s.lastSequence == facts[|facts| - 1].sequence;
    hide Count, Healed;
  }

  lemma LastComesLater(facts: seq<Fact>, fact: Fact)
    requires facts != [] && Admissible(facts + [fact])
    ensures fact.Valid() && facts[|facts| - 1].sequence < fact.sequence
    ensures forall i | 0 <= i < |facts| :: !facts[i].Clashes(fact)
  {
    var n := |facts|;
    assert (facts + [fact])[n] == fact && forall i | 0 <= i < n :: (facts + [fact])[i] == facts[i];
  }

  lemma HealAdvances(key: Key, candidate: string, band: Band, facts: seq<Fact>, fact: Fact)
    requires facts != [] && (band.Applied? || band.BelowCap?)
    requires fact.Valid() && !Blank(key.target) && !Blank(key.base) && !Blank(candidate)
    ensures Healed(key, candidate, band, fact).Valid()
    ensures Advance(Count(key, candidate, band, facts, Observing), Healed(key, candidate, band, fact))
         == Count(key, candidate, band, facts + [fact], if |facts| < 2 then Observing else Ending(band))
  {
    hide Blank;
  }

  lemma CountIsValid(key: Key, candidate: string, band: Band, facts: seq<Fact>)
    requires 0 < |facts| < MATURITY && Admissible(facts) && (band.Applied? || band.BelowCap?)
    requires !Blank(key.target) && !Blank(key.base) && !Blank(candidate)
    ensures Count(key, candidate, band, facts, Observing).Valid()
  {
    assert facts[|facts| - 1].Valid();
    hide Blank, Admissible;
  }

  lemma CanonicalIsNotBlank(s: string)
    requires CanonicalIdentity(s)
    ensures !Blank(s)
  {
    assert !IsSpace(s[0]);
  }

  /** A proper heal stands for its observation. */
  lemma ProperIsMapped(key: Key, s: Streak, turn: Turn, candidate: string, evidence: EvidenceBand, band: Band)
    requires Proper(key, turn, candidate, evidence) && CanonicalIdentity(candidate)
    requires CanonicalIdentity(key.target) && CanonicalIdentity(key.base)
    requires (evidence.DecisionApplied? && band.Applied?) || (evidence.DecisionBelowCap? && band.BelowCap?)
    ensures FactOk(turn.fact) && Remembered(turn).Valid() && CanonicalFact(Remembered(turn))
    ensures Mapped(turn.fact, At(key, s, turn)) == Some(Healed(key, candidate, band, Remembered(turn)))
  {
    var f, o := turn.fact, turn.fact.observation.value;
    CanonicalIsNotBlank(f.factId);
    CanonicalIsNotBlank(f.commitId);
    CanonicalIsNotBlank(f.instanceId);
    CanonicalIsNotBlank(o.entryId);
    CanonicalIsNotBlank(o.stepExecutionId);
    assert CanonicalIdentity("") == false;
    hide CanonicalIdentity, Blank;
  }

  lemma CountIsCanonical(key: Key, candidate: string, band: Band, facts: seq<Fact>)
    requires facts != [] && forall f | f in facts :: CanonicalFact(f)
    requires CanonicalIdentity(key.target) && CanonicalIdentity(key.base) && CanonicalIdentity(candidate)
    ensures var s := Count(key, candidate, band, facts, Observing);
            CanonicalStreak(s) && s.target == key.target && s.base == key.base && s.disposition.Observing?
  {
    hide CanonicalIdentity, CanonicalFact;
  }

  /** A plan on a running count is read. */
  lemma CountIsRead(key: Key, turn: Turn, candidate: string, band: Band, facts: seq<Fact>)
    requires 0 < |facts| < MATURITY && Admissible(facts) && (band.Applied? || band.BelowCap?)
    requires forall f | f in facts :: CanonicalFact(f)
    requires CanonicalIdentity(key.target) && CanonicalIdentity(key.base) && CanonicalIdentity(candidate)
    requires turn.Planned? && turn.currentVersion == key.base && turn.revision != 0
    requires turn.existing.None? && (turn.status.None? || turn.status == Some(CandidateObserving))
    ensures var p := At(key, Count(key, candidate, band, facts, Observing), turn);
            SnapshotOk(p) && ExistingAgrees(p.existing, p.streak)
  {
    hide CanonicalIdentity, Blank, Admissible, Streak.Valid, CanonicalFact;
    CanonicalIsNotBlank(key.target);
    CanonicalIsNotBlank(key.base);
    CanonicalIsNotBlank(candidate);
    CountIsValid(key, candidate, band, facts);
    CountIsCanonical(key, candidate, band, facts);
    hide Count, CanonicalStreak;
  }

  /** The turn is planned on a count without a stored effect. */
  predicate Undisturbed(turn: Turn) {
    turn.Planned? && turn.existing.None? && (turn.status.None? || turn.status == Some(CandidateObserving))
  }

  lemma PlanFollows(p: Snapshot, f: AcceptedFact, o: Observation, next: Streak)
    requires SnapshotOk(p) && ExistingAgrees(p.existing, p.streak) && FactOk(f)
    requires Mapped(f, p) == Some(o) && Observe(p.streak, o) == Ok(next)
    ensures PlanHeal(p, f).Ok? && PlanHeal(p, f).value.next == next
    ensures PlanHeal(p, f).value.effect == TerminalEffect(p.streak, next)
  {
    hide SnapshotOk, ExistingAgrees, FactOk, Mapped, Observe, TerminalEffect;
  }

  /** A heal on a count of one or two facts. */
  lemma HealGoesOn(key: Key, turn: Turn, candidate: string, evidence: EvidenceBand, band: Band, facts: seq<Fact>)
    requires Proper(key, turn, candidate, evidence) && CanonicalIdentity(candidate) && Undisturbed(turn)
    requires 0 < |facts| < MATURITY && Admissible(facts + [Remembered(turn)]) && (forall f | f in facts :: CanonicalFact(f))
    requires CanonicalIdentity(key.target) && CanonicalIdentity(key.base)
    requires (evidence.DecisionApplied? && band.Applied?) || (evidence.DecisionBelowCap? && band.BelowCap?)
    ensures var s, t := Count(key, candidate, band, facts, Observing),
              Count(key, candidate, band, facts + [Remembered(turn)], if |facts| < 2 then Observing else Ending(band));
            Turned(key, s, turn) == t && Emits(key, s, turn) == TerminalEffect(s, t)
  {
    hide Admissible, CanonicalIdentity, Blank, CanonicalFact, Streak.Valid, PlanHeal, Mapped, SnapshotOk, ExistingAgrees, FactOk,
      Observe, TerminalEffect, Count;
    AdmissibleInit(facts, Remembered(turn));
    CanonicalIsNotBlank(key.target);
    CanonicalIsNotBlank(key.base);
    CanonicalIsNotBlank(candidate);
    var s := Count(key, candidate, band, facts, Observing);
    ProperIsMapped(key, s, turn, candidate, evidence, band);
    CountIsValid(key, candidate, band, facts);
    CountIsRead(key, turn, candidate, band, facts);
    HealCounts(key, candidate, band, facts, Remembered(turn));
    PlanFollows(At(key, s, turn), turn.fact, Healed(key, candidate, band, Remembered(turn)),
      Count(key, candidate, band, facts + [Remembered(turn)], if |facts| < 2 then Observing else Ending(band)));
  }

  lemma AdmissibleInit(facts: seq<Fact>, fact: Fact)
    requires Admissible(facts + [fact])
    ensures Admissible(facts)
  {
    assert forall i | 0 <= i < |facts| :: (facts + [fact])[i] == facts[i];
  }

  /** Three turns heal one candidate, properly, in one band, one fact after the other. */
  ghost predicate ThreeHeals(key: Key, turns: seq<Turn>, candidate: string, band: EvidenceBand) {
    && |turns| == 3 && CanonicalIdentity(key.target) && CanonicalIdentity(key.base) && CanonicalIdentity(candidate)
    && (forall k | 0 <= k < 3 :: Proper(key, turns[k], candidate, band))
    && Undisturbed(turns[1]) && Undisturbed(turns[2])
    && Admissible([Remembered(turns[0]), Remembered(turns[1]), Remembered(turns[2])])
  }

  /** The plan reads the streak, which can be started anew by a heal that it has not seen. */
  ghost predicate Startable(key: Key, s: Streak, turn: Turn, candidate: string, band: Band)
    requires turn.Planned? && turn.fact.observation.Some?
  {
    && SnapshotOk(At(key, s, turn)) && ExistingAgrees(turn.existing, s) && CanStart(s, key, candidate, band)
    && turn.fact.sequence > s.lastSequence && forall f | f in s.Provenance() :: !f.Clashes(Remembered(turn))
  }

  lemma FirstHeal(key: Key, s: Streak, turn: Turn, candidate: string, evidence: EvidenceBand, band: Band)
    requires Proper(key, turn, candidate, evidence) && CanonicalIdentity(candidate)
    requires CanonicalIdentity(key.target) && CanonicalIdentity(key.base)
    requires (evidence.DecisionApplied? && band.Applied?) || (evidence.DecisionBelowCap? && band.BelowCap?)
    requires Startable(key, s, turn, candidate, band)
    ensures Turned(key, s, turn) == Count(key, candidate, band, [Remembered(turn)], Observing)
  {
    CanonicalIsNotBlank(key.target);
    CanonicalIsNotBlank(key.base);
    CanonicalIsNotBlank(candidate);
    ProperIsMapped(key, s, turn, candidate, evidence, band);
    hide CanonicalIdentity, Blank, CanonicalFact, CanonicalStreak, Streak.Valid, PlanHeal, Mapped, ExistingAgrees, FactOk, Observe,
      TerminalEffect, Count, CanStart, Proper;
    HealStarts(s, key, candidate, band, Remembered(turn));
    PlanFollows(At(key, s, turn), turn.fact, Healed(key, candidate, band, Remembered(turn)),
      Count(key, candidate, band, [Remembered(turn)], Observing));
  }

  /**
   Three heals of one candidate, on a streak that holds nothing, was reset or counts
   something else: APPLIED ones have it published, BELOW CAP ones put up for approval.
   */
  lemma ThreeHealsTakeEffect(key: Key, s: Streak, turns: seq<Turn>, candidate: string, evidence: EvidenceBand, band: Band)
    requires ThreeHeals(key, turns, candidate, evidence) && Startable(key, s, turns[0], candidate, band)
    requires (evidence.DecisionApplied? && band.Applied?) || (evidence.DecisionBelowCap? && band.BelowCap?)
    ensures Emits(key, After(key, s, turns[..2]), turns[2])
         == Some(Effect(if evidence.DecisionApplied? then PublishEffect else ApprovalEffect, candidate, band,
                        [Remembered(turns[0]), Remembered(turns[1]), Remembered(turns[2])]))
  {
    hide *;
    ThreeHealsAre(key, turns, candidate, evidence);
    var f0, f1, f2 := Remembered(turns[0]), Remembered(turns[1]), Remembered(turns[2]);
    assert [f0] + [f1] == [f0, f1] && [f0, f1] + [f2] == [f0, f1, f2];
    TwoTurns(key, s, turns);
    ThreeCanonical(key, s, turns, candidate, evidence, band);
    AdmissibleInit([f0, f1], f2);
    FirstHeal(key, s, turns[0], candidate, evidence, band);
    HealGoesOn(key, turns[1], candidate, evidence, band, [f0]);
    HealGoesOn(key, turns[2], candidate, evidence, band, [f0, f1]);
    EndingHasEffect(key, candidate, evidence, band, [f0, f1], [f0, f1, f2]);
  }

  lemma ThreeHealsAre(key: Key, turns: seq<Turn>, candidate: string, evidence: EvidenceBand)
    requires ThreeHeals(key, turns, candidate, evidence)
    ensures |turns| == 3 && CanonicalIdentity(key.target) && CanonicalIdentity(key.base) && CanonicalIdentity(candidate)
    ensures Proper(key, turns[0], candidate, evidence) && Proper(key, turns[1], candidate, evidence)
    ensures Proper(key, turns[2], candidate, evidence) && Undisturbed(turns[1]) && Undisturbed(turns[2])
    ensures turns[0].Planned? && turns[0].fact.observation.Some? && turns[1].Planned? && turns[1].fact.observation.Some?
    ensures turns[2].Planned? && turns[2].fact.observation.Some?
    ensures Admissible([Remembered(turns[0]), Remembered(turns[1]), Remembered(turns[2])])
    ensures MATURITY == 3
  {
    hide CanonicalIdentity, Admissible, Remembered;
  }

  lemma EndingHasEffect(key: Key, candidate: string, evidence: EvidenceBand, band: Band, two: seq<Fact>, three: seq<Fact>)
    requires two != [] && three != []
    requires (evidence.DecisionApplied? && band.Applied?) || (evidence.DecisionBelowCap? && band.BelowCap?)
    ensures TerminalEffect(Count(key, candidate, band, two, Observing), Count(key, candidate, band, three, Ending(band)))
         == Some(Effect(if evidence.DecisionApplied? then PublishEffect else ApprovalEffect, candidate, band, three))
  {
  }

  lemma TwoTurns(key: Key, s: Streak, turns: seq<Turn>)
    requires |turns| >= 2
    ensures After(key, s, turns[..2]) == Turned(key, Turned(key, s, turns[0]), turns[1])
  {
    hide Turned;
    assert turns[..2][..1] == [turns[0]] && turns[..2][1] == turns[1] && [turns[0]][..0] == [];
    assert After(key, s, []) == s;
    assert After(key, s, [turns[0]]) == Turned(key, s, turns[0]);
  }

  lemma ThreeCanonical(key: Key, s: Streak, turns: seq<Turn>, candidate: string, evidence: EvidenceBand, band: Band)
    requires ThreeHeals(key, turns, candidate, evidence)
    requires (evidence.DecisionApplied? && band.Applied?) || (evidence.DecisionBelowCap? && band.BelowCap?)
    ensures CanonicalFact(Remembered(turns[0])) && CanonicalFact(Remembered(turns[1])) && CanonicalFact(Remembered(turns[2]))
  {
    hide CanonicalIdentity, Admissible, CanonicalFact, Mapped;
    ProperIsMapped(key, s, turns[0], candidate, evidence, band);
    ProperIsMapped(key, s, turns[1], candidate, evidence, band);
    ProperIsMapped(key, s, turns[2], candidate, evidence, band);
  }

  /** So from nothing the first three such heals of a candidate take effect. */
  lemma NothingIsStartable(key: Key, turn: Turn, candidate: string, evidence: EvidenceBand, band: Band)
    requires Proper(key, turn, candidate, evidence) && turn.status.None? && turn.existing.None?
    requires CanonicalIdentity(key.target) && CanonicalIdentity(key.base)
    ensures Startable(key, EMPTY, turn, candidate, band)
  {
    hide CanonicalIdentity;
    assert EMPTY.Provenance() == [];
  }

  // ----- how a count ends without maturing -----

  /** The fact has not been consumed yet. */
  predicate IsNew(s: Streak, turn: Turn)
    requires turn.Planned?
  {
    forall f | f in s.Provenance() :: f.factId != turn.fact.factId
  }

  /**
   A plan that is accepted for a new fact resets the streak exactly when the fact says
   that the old selector works again on the current version, and makes it stale exactly
   when the version has moved on; either only while there is nothing final about it.
   A reset drops what was counted, a stale streak keeps it.
   */
  lemma EndingsExactly(key: Key, s: Streak, turn: Turn)
    requires turn.Planned? && PlanHeal(At(key, s, turn), turn.fact).Ok? && IsNew(s, turn)
    ensures var effect := Emits(key, s, turn);
            && (effect.Some? && effect.value.kind.ResetEffect?
                <==> turn.fact.kind.ResetFact? && turn.currentVersion == key.base && (s.Empty() || s.observing))
            && (effect.Some? && effect.value.kind.StaleEffect?
                <==> turn.currentVersion != key.base && (s.Empty() || s.observing))
            && (effect.Some? && effect.value.kind.ResetEffect? ==> effect.value.candidate == "" && effect.value.contributions == [])
            && (effect.Some? && effect.value.kind.StaleEffect? ==>
                  effect.value.contributions == s.contributions
                    && effect.value.candidate == (if s.observing then s.candidate else ""))
  {
    hide *;
    PlanIsObserved(key, s, turn);
    MappingIgnoresStreak(key, s, turn);
    var o := MappedAt(key, turn).value;
    PlanIsRead(key, s, turn);
    MappedKinds(key, turn);
    EmitsThen(key, s, turn);
    NewAdvances(s, turn, o);
    AdvanceEnds(s, o);
  }

  lemma EmitsThen(key: Key, s: Streak, turn: Turn)
    requires turn.Planned? && PlanHeal(At(key, s, turn), turn.fact).Ok?
    ensures Emits(key, s, turn) == PlanHeal(At(key, s, turn), turn.fact).value.effect
  {
    hide PlanHeal;
  }

  lemma NewAdvances(s: Streak, turn: Turn, o: Observation)
    requires turn.Planned? && IsNew(s, turn) && o.fact.factId == turn.fact.factId && Observe(s, o).Ok?
    ensures o.Valid() && Observe(s, o) == Ok(Advance(s, o))
  {
    ScannedMeaning(s.Provenance(), o.fact);
    hide Streak.Valid, Observation.Valid, Admissible, Streak.Provenance, Scanned, Advance;
  }

  /** What an observation of the streak's own target and version ends, and how. */
  lemma AdvanceEnds(s: Streak, o: Observation)
    requires s.Valid() && o.Valid()
    requires !s.disposition.NoDisposition? ==> s.target == o.target && s.base == o.base
    ensures var effect := TerminalEffect(s, Advance(s, o));
            && (effect.Some? && effect.value.kind.ResetEffect?
                <==> o.outcome.Recovered? && o.baseIsCurrent && (s.Empty() || s.observing))
            && (effect.Some? && effect.value.kind.StaleEffect? <==> !o.baseIsCurrent && (s.Empty() || s.observing))
            && (effect.Some? && effect.value.kind.ResetEffect? ==> effect.value.candidate == "" && effect.value.contributions == [])
            && (effect.Some? && effect.value.kind.StaleEffect? ==>
                  effect.value.contributions == s.contributions
                    && effect.value.candidate == (if s.observing then s.candidate else ""))
  {
    StreakShape(s);
    hide Streak.Valid, Observation.Valid, Streak.Provenance;
  }

  lemma PlanIsRead(key: Key, s: Streak, turn: Turn)
    requires turn.Planned? && PlanHeal(At(key, s, turn), turn.fact).Ok?
    ensures s.Valid() && (!s.disposition.NoDisposition? ==> s.target == key.target && s.base == key.base)
  {
    hide Mapped, Observe, Streak.Valid;
  }

  lemma MappedKinds(key: Key, turn: Turn)
    requires turn.Planned? && MappedAt(key, turn).Some?
    ensures var o := MappedAt(key, turn).value;
            && (o.outcome.Recovered? <==> turn.fact.kind.ResetFact?)
            && (o.baseIsCurrent <==> turn.currentVersion == key.base)
            && o.target == key.target && o.base == key.base && o.fact.factId == turn.fact.factId
  {
    hide CanonicalIdentity;
  }
}

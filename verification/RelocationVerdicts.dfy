/**
 What a relocation comes to, said of the candidates of the page themselves: how the
 scores of those nearest to the target decide the outcome, and when a candidate
 scores one.
 */
module RelocationVerdicts {
  import opened Wrappers
  import opened Distances
  import opened Fingerprints
  import opened Relocation

  // ----- the outcome -----

  /** No element of the page shares more of the target's path. */
  predicate Nearest(t: Fingerprint, all: seq<Found>, c: Found) {
    c in all && forall x | x in all :: Lcs(t.path, x.fingerprint.path) <= Lcs(t.path, c.fingerprint.path)
  }

  /** One of the nearest elements scores at least this much. */
  ghost predicate Reaches(w: Weights, t: Fingerprint, all: seq<Found>, score: real) {
    exists c :: Nearest(t, all, c) && Score(w, t, c.fingerprint) >= score
  }

  /** The ranking holds just the nearest elements, with their scores. */
  lemma RankedExactly(w: Weights, t: Fingerprint, all: seq<Found>, c: Candidate)
    ensures c in Ranked(w, t, all) <==> Nearest(t, all, c.found) && c.score == Score(w, t, c.found.fingerprint)
  {
    var narrowed := Narrowed(t.path, all);
    var scored := Scored(w, t, narrowed);
    SortedIsSorted(scored);
    NarrowedIsArgmax(t.path, all, c.found);
    assert c in Sorted(scored) <==> c in multiset(Sorted(scored));
    assert c in scored <==> c in multiset(scored);
    if c.found in narrowed {
      var i :| 0 <= i < |narrowed| && narrowed[i] == c.found;
      assert scored[i] == Candidate(c.found, Score(w, t, c.found.fingerprint));
    }
    hide Score, Sorted, Narrowed, Lcs, InOrder;
  }

  lemma ReachesRanked(w: Weights, t: Fingerprint, all: seq<Found>, score: real)
    requires w.NonNegative()
    ensures var ranked := Ranked(w, t, all);
            Reaches(w, t, all, score) <==> ranked != [] && ranked[0].score >= score
  {
    var ranked := Ranked(w, t, all);
    RankedIsOrdered(w, t, all);
    forall c | c in ranked
      ensures Unit(c.score)
    {
      RankedAre(w, t, all, c);
    }
    hide Ranked, Score, Nearest, InOrder;
    if Reaches(w, t, all, score) {
      var c :| Nearest(t, all, c) && Score(w, t, c.fingerprint) >= score;
      RankedExactly(w, t, all, Candidate(c, Score(w, t, c.fingerprint)));
      var i :| 0 <= i < |ranked| && ranked[i] == Candidate(c, Score(w, t, c.fingerprint));
      FirstScoresHighest(ranked, i);
    }
    if ranked != [] && ranked[0].score >= score {
      RankedExactly(w, t, all, ranked[0]);
      assert Nearest(t, all, ranked[0].found);
    }
  }

  /**
   Healing applies a candidate exactly when one of the nearest elements reaches the
   applied cap, asks for a review exactly when one reaches the review cap but none the
   applied cap, and finds none otherwise; its candidate is a nearest element that no
   other outscores.
   */
  lemma OutcomeExactly(w: Weights, caps: Thresholds, t: Fingerprint, all: seq<Found>)
    requires w.NonNegative() && caps.Valid()
    ensures var d := HealDecision(w, caps, t, all);
            && (d.outcome.Applied? <==> Reaches(w, t, all, caps.appliedCap))
            && (d.outcome.BelowCap? <==> Reaches(w, t, all, caps.reviewCap) && !Reaches(w, t, all, caps.appliedCap))
            && (d.outcome.NoCandidate? <==> !Reaches(w, t, all, caps.reviewCap))
            && (d.needsReview <==> d.outcome.BelowCap?)
            && (d.best.None? <==> d.outcome.NoCandidate?)
            && (d.best.Some? ==>
                  && Nearest(t, all, d.best.value.found)
                  && d.best.value.score == Score(w, t, d.best.value.found.fingerprint)
                  && forall c | Nearest(t, all, c) :: Score(w, t, c.fingerprint) <= d.best.value.score)
  {
    ReachesRanked(w, t, all, caps.appliedCap);
    ReachesRanked(w, t, all, caps.reviewCap);
    var ranked := Ranked(w, t, all);
    assert HealDecision(w, caps, t, all) == Classified(caps, ranked);
    hide Ranked, Score, Nearest, HealDecision;
    if ranked != [] {
      RankedExactly(w, t, all, ranked[0]);
      ReachesRanked(w, t, all, ranked[0].score);
      forall c | Nearest(t, all, c)
        ensures Score(w, t, c.fingerprint) <= ranked[0].score
      {
        NearestIsBeaten(w, t, all, c);
      }
    }
    hide Reaches;
  }

  lemma NearestIsBeaten(w: Weights, t: Fingerprint, all: seq<Found>, c: Found)
    requires w.NonNegative() && Nearest(t, all, c)
    ensures var ranked := Ranked(w, t, all); ranked != [] && Score(w, t, c.fingerprint) <= ranked[0].score
  {
    ReachesRanked(w, t, all, Score(w, t, c.fingerprint));
    hide Ranked, Score, Nearest;
    assert Reaches(w, t, all, Score(w, t, c.fingerprint));
  }

  // ----- when a candidate scores one -----

  /** What it takes for each dimension to lose nothing, in the order of the dimensions. */
  ghost predicate Agrees(t: Fingerprint, c: Fingerprint, dimension: nat) {
    match dimension
    case 0 => t.tag == c.tag
    case 1 => t.Attribute("id") == c.Attribute("id")
    case 2 => t.role == c.role && t.name == c.name
    case 3 => ClassesOf(t) == ClassesOf(c)
    case 4 => forall k | k in KeyAttributes(t) :: c.Attribute(k) == t.Attribute(k)
    case 5 => t.text == c.text
    case 6 => t.siblingIndex == c.siblingIndex && t.siblingIndex >= 0
    case 7 => (t.prev != "" ==> c.prev == t.prev) && (t.next != "" ==> c.next == t.next)
                && (t.parentTag != "" ==> c.parentTag == t.parentTag)
    case 8 => t.labelText == c.labelText
    case 9 => t.formId == c.formId
    case 10 => forall x | x in t.framework :: Runs(c.framework, x)
    case _ => true
  }

  lemma JaccardPerfect(a: set<string>, b: set<string>)
    requires a != {}
    ensures SimJaccard(a, b) == 1.0 <==> a == b
  {
    assert a * b <= a <= a + b;
    SubsetSize(a, a + b);
    SubsetSize(a * b, a + b);
    FractionIsUnit(|a * b|, |a + b|);
    if |a * b| == |a + b| { SameSize(a * b, a + b); }
    if a == b { assert a * b == a && a + b == a; }
    hide Fraction;
  }

  lemma SameSize<T>(a: set<T>, b: set<T>)
    requires a <= b && |a| == |b|
    ensures a == b
  {
    assert |b - a| == |b| - |a|;
  }

  lemma KeyAttributesPerfect(t: Fingerprint, c: Fingerprint)
    requires KeyAttributes(t) != {}
    ensures SimKeyAttributes(t, c) == 1.0 <==> Agrees(t, c, 4)
  {
    var keys, same := KeyAttributes(t), Matching(t, c);
    SubsetSize(same, keys);
    FractionIsUnit(|same|, |keys|);
    if |same| == |keys| { SameSize(same, keys); }
    assert same == keys <==> forall k | k in keys :: c.Attribute(k) == t.Attribute(k);
    hide Fraction, KeyAttributes;
  }

  lemma TextPerfect(a: string, b: string)
    requires a != ""
    ensures SimText(a, b) == 1.0 <==> a == b
  {
    EditsBounded(a, b);
    EditsZero(a, b);
    var n := MaxNat(|a|, |b|);
    FractionIsUnit(Edits(a, b), n);
    FractionZero(Edits(a, b), n);
    hide Edits, Fraction;
  }

  lemma FractionZero(p: nat, q: nat)
    requires q > 0
    ensures Fraction(p, q) == 0.0 <==> p == 0
  {
    var x := Fraction(p, q);
    assert x * (q as real) == p as real;
  }

  lemma IndexPerfect(a: int, b: int)
    ensures SimIndex(a, b) == 1.0 <==> a == b && a >= 0
  {
    if a >= 0 && b >= 0 && (a > 0 || b > 0) {
      FractionIsUnit(Distance(a, b), MaxNat(a, b));
      FractionZero(Distance(a, b), MaxNat(a, b));
    }
    hide Fraction;
  }

  lemma NeighborPerfect(t: Fingerprint, c: Fingerprint)
    requires HasNeighbors(t)
    ensures SimNeighbor(t, c) == 1.0 <==> Agrees(t, c, 7)
  {
    FractionIsUnit(NeighborsSame(t, c), NeighborsSeen(t));
    hide Fraction;
  }

  lemma {:induction false} FrameworksAll(t: seq<FrameworkInfo>, c: seq<FrameworkInfo>)
    ensures FrameworksFound(t, c) <= |t|
    ensures FrameworksFound(t, c) == |t| <==> forall x | x in t :: Runs(c, x)
  {
    if t != [] {
      var init, last := t[..|t| - 1], t[|t| - 1];
      FrameworksAll(init, c);
      assert forall x :: x in t <==> x in init || x == last;
    }
    hide Runs;
  }

  lemma FrameworkPerfect(t: seq<FrameworkInfo>, c: seq<FrameworkInfo>)
    requires t != []
    ensures SimFramework(t, c) == 1.0 <==> forall x | x in t :: Runs(c, x)
  {
    FrameworksAll(t, c);
    FractionIsUnit(FrameworksFound(t, c), |t|);
    assert t[0] in t;
    hide Fraction, FrameworksFound;
    if c == [] { assert !Runs(c, t[0]); }
  }

  /** A dimension in which the target has a signal loses nothing exactly when the candidate agrees in it. */
  lemma DimensionPerfect(w: Weights, t: Fingerprint, c: Fingerprint, i: nat)
    requires i < 11 && Signals(w, t)[i].on
    ensures Similarities(t, c)[i] == 1.0 <==> Agrees(t, c, i)
  {
    if i == 3 { JaccardPerfect(ClassesOf(t), ClassesOf(c)); }
    if i == 4 { KeyAttributesPerfect(t, c); }
    if i == 5 { TextPerfect(t.text, c.text); }
    if i == 6 { IndexPerfect(t.siblingIndex, c.siblingIndex); }
    if i == 7 { NeighborPerfect(t, c); }
    if i == 8 { TextPerfect(t.labelText, c.labelText); }
    if i == 10 { FrameworkPerfect(t.framework, c.framework); }
    hide SimText, SimIndex, SimJaccard, SimKeyAttributes, SimNeighbor, SimFramework, KeyAttributes, Words;
  }

  /** All is gained exactly when every dimension that weighs anything loses nothing. */
  lemma {:induction false} GainedPerfect(signals: seq<Signal>, sims: seq<real>)
    requires |signals| == |sims|
    requires forall i | 0 <= i < |signals| :: signals[i].weight >= 0.0 && Unit(sims[i])
    ensures GainedOf(signals, sims) == TotalOf(signals)
       <==> forall i | 0 <= i < |signals| && signals[i].on && signals[i].weight > 0.0 :: sims[i] == 1.0
  {
    if signals != [] {
      var n := |signals| - 1;
      GainedPerfect(signals[..n], sims[..n]);
      GainedOfBounded(signals[..n], sims[..n]);
      PartBounded(signals[n], sims[n]);
      PartPerfect(signals[n], sims[n]);
        hide Signal.Part, Signal.Whole;
    }
  }

  lemma PartPerfect(signal: Signal, similarity: real)
    requires signal.weight >= 0.0 && Unit(similarity)
    ensures signal.Part(similarity) == signal.Whole() <==> (signal.on && signal.weight > 0.0 ==> similarity == 1.0)
  {
    if signal.on && signal.weight > 0.0 {
      assert signal.weight * (1.0 - similarity) == signal.weight - signal.weight * similarity;
      CancelPositive(1.0 - similarity, signal.weight);
    }
  }

  /** The target has a signal in the dimension, and the dimension weighs something. */
  ghost predicate Weighs(w: Weights, t: Fingerprint, dimension: nat) {
    match dimension
    case 0 => t.tag != "" && w.tag > 0.0
    case 1 => t.Attribute("id") != "" && w.id > 0.0
    case 2 => (t.role != "" || t.name != "") && w.roleName > 0.0
    case 3 => ClassesOf(t) != {} && w.class_ > 0.0
    case 4 => KeyAttributes(t) != {} && w.attrs > 0.0
    case 5 => t.text != "" && w.text > 0.0
    case 6 => w.index > 0.0
    case 7 => (t.prev != "" || t.next != "" || t.parentTag != "") && w.neighbor > 0.0
    case 8 => t.labelText != "" && w.labelText > 0.0
    case 9 => t.formId != "" && w.container > 0.0
    case 10 => t.framework != [] && w.framework > 0.0
    case _ => false
  }

  lemma WeighsIsOn(w: Weights, t: Fingerprint, i: nat)
    requires i < 11
    ensures Weighs(w, t, i) <==> Signals(w, t)[i].on && Signals(w, t)[i].weight > 0.0
  {
    hide KeyAttributes, Words;
  }

  lemma {:induction false} TotalPositive(signals: seq<Signal>)
    requires forall i | 0 <= i < |signals| :: signals[i].weight >= 0.0
    ensures TotalOf(signals) >= 0.0
    ensures TotalOf(signals) > 0.0 <==> exists i :: 0 <= i < |signals| && signals[i].on && signals[i].weight > 0.0
  {
    if signals != [] {
      var init := signals[..|signals| - 1];
      TotalPositive(init);
      assert forall i | 0 <= i < |init| :: init[i] == signals[i];
      if i :| 0 <= i < |init| && init[i].on && init[i].weight > 0.0 { assert signals[i].on; }
    }
  }

  /** The target has something to be recognised by, and the candidate agrees with all of it. */
  ghost predicate Perfect(w: Weights, t: Fingerprint, c: Fingerprint) {
    (exists i: nat :: i < 11 && Weighs(w, t, i)) && forall i: nat | i < 11 && Weighs(w, t, i) :: Agrees(t, c, i)
  }

  /** A candidate scores one exactly when it agrees in every dimension that the target has and that weighs anything. */
  lemma PerfectScoreExactly(w: Weights, t: Fingerprint, c: Fingerprint)
    requires w.NonNegative()
    ensures Score(w, t, c) == 1.0 <==> Perfect(w, t, c)
  {
    var signals, sims := Signals(w, t), Similarities(t, c);
    SimilaritiesAreUnit(t, c);
    assert forall i | 0 <= i < 11 :: signals[i].weight >= 0.0;
    GainedPerfect(signals, sims);
    TotalPositive(signals);
    GainedBounded(w, t, c);
    forall i: nat | i < 11
      ensures Weighs(w, t, i) <==> signals[i].on && signals[i].weight > 0.0
      ensures Weighs(w, t, i) ==> (sims[i] == 1.0 <==> Agrees(t, c, i))
    {
      WeighsIsOn(w, t, i);
      if signals[i].on { DimensionPerfect(w, t, c, i); }
    }
    if Total(w, t) != 0.0 { Quotient(Gained(w, t, c), Total(w, t)); }
    hide Signals, Similarities, Weighs, Agrees, TotalOf, GainedOf;
  }
}

/**
 Deterministic relocation of a lost element (domain/heal): narrowing by ancestor
 path, weighted similarity, a deterministic order and two thresholds.
 */
module Relocation {
  import opened Wrappers
  import opened Distances
  import opened Fingerprints
  import T = Text

  datatype Weights = Weights(tag: real, id: real, roleName: real, class_: real, attrs: real, text: real,
    index: real, neighbor: real, labelText: real, container: real, framework: real)
  {
    function Sum(): real {
      tag + id + roleName + class_ + attrs + text + index + neighbor + labelText + container + framework
    }

    predicate NonNegative() {
      && 0.0 <= tag && 0.0 <= id && 0.0 <= roleName && 0.0 <= class_ && 0.0 <= attrs && 0.0 <= text
      && 0.0 <= index && 0.0 <= neighbor && 0.0 <= labelText && 0.0 <= container && 0.0 <= framework
    }

    predicate Valid() {
      NonNegative() && Sum() > 0.0
    }
  }

  datatype Thresholds = Thresholds(appliedCap: real, reviewCap: real)
  {
    predicate Valid() {
      0.0 <= reviewCap < appliedCap <= 1.0
    }
  }

  // ----- similarities -----

  /** A share of a positive whole. */
  function Fraction(p: nat, q: nat): real
    requires q > 0
  {
    (p as real) / (q as real)
  }

  predicate Unit(x: real) {
    0.0 <= x <= 1.0
  }

  lemma FractionIsUnit(p: nat, q: nat)
    requires p <= q && q > 0
    ensures Unit(Fraction(p, q)) && (Fraction(p, q) == 1.0 <==> p == q)
    ensures Fraction(0, q) == 0.0
  {
    var x, y := Fraction(p, q), q as real;
    assert x * y == p as real;
    CancelPositive(x, y);
    CancelPositive(1.0 - x, y);
    assert (1.0 - x) * y == y - x * y;
  }

  function SimEqual(a: string, b: string): real {
    if a != "" && a == b then 1.0 else 0.0
  }

  function SimRoleName(a: Fingerprint, b: Fingerprint): real {
    if (a.role != "" || a.name != "") && a.role == b.role && a.name == b.name then 1.0 else 0.0
  }

  /** Words separated by white space. */
  function Words(s: string): set<string> {
    WordsFrom(s, "")
  }

  function WordsFrom(s: string, word: string): set<string> {
    var found := if word == "" then {} else {word};
    if s == "" then found
    else if T.IsSpace(s[0]) then found + WordsFrom(s[1..], "")
    else WordsFrom(s[1..], word + [s[0]])
  }

  function SimJaccard(a: set<string>, b: set<string>): real {
    if |a + b| == 0 then 0.0 else Fraction(|a * b|, |a + b|)
  }

  const KEY_ATTRIBUTES: set<string> := {"data-testid", "name", "type", "aria-label", "placeholder", "href"}

  /** The attributes of the target that identify it: the fixed ones and every `data-` attribute. */
  function KeyAttributes(target: Fingerprint): set<string> {
    set k | k in target.attributes && target.attributes[k] != "" && (k in KEY_ATTRIBUTES || "data-" <= k)
  }

  function Matching(target: Fingerprint, candidate: Fingerprint): set<string> {
    set k | k in KeyAttributes(target) && candidate.Attribute(k) == target.Attribute(k)
  }

  function SimKeyAttributes(target: Fingerprint, candidate: Fingerprint): real {
    if KeyAttributes(target) == {} then 0.0
    else Fraction(|Matching(target, candidate)|, |KeyAttributes(target)|)
  }

  function SimText(a: string, b: string): real {
    if a == "" && b == "" then 0.0
    else
      var sim := 1.0 - Fraction(Edits(a, b), MaxNat(|a|, |b|));
      if sim < 0.0 then 0.0 else sim
  }

  function Distance(a: int, b: int): nat {
    if a < b then b - a else a - b
  }

  function SimIndex(a: int, b: int): real {
    if a < 0 || b < 0 then 0.0
    else if a == 0 && b == 0 then 1.0
    else
      var sim := 1.0 - Fraction(Distance(a, b), MaxNat(a, b));
      if sim < 0.0 then 0.0 else sim
  }

  function One(b: bool): nat {
    if b then 1 else 0
  }

  function NeighborsSeen(t: Fingerprint): nat {
    One(t.prev != "") + One(t.next != "") + One(t.parentTag != "")
  }

  function NeighborsSame(t: Fingerprint, c: Fingerprint): nat {
    One(t.prev != "" && t.prev == c.prev) + One(t.next != "" && t.next == c.next)
      + One(t.parentTag != "" && t.parentTag == c.parentTag)
  }

  function SimNeighbor(t: Fingerprint, c: Fingerprint): real {
    if NeighborsSeen(t) == 0 then 0.0 else Fraction(NeighborsSame(t, c), NeighborsSeen(t))
  }

  predicate Compatible(expected: FrameworkInfo, actual: FrameworkInfo) {
    expected.kind == actual.kind
      && (expected.version == "" || actual.version == "" || expected.version == actual.version)
  }

  predicate Runs(stack: seq<FrameworkInfo>, expected: FrameworkInfo) {
    exists i :: 0 <= i < |stack| && Compatible(expected, stack[i])
  }

  function FrameworksFound(target: seq<FrameworkInfo>, candidate: seq<FrameworkInfo>): nat {
    if target == [] then 0
    else FrameworksFound(target[..|target| - 1], candidate) + One(Runs(candidate, target[|target| - 1]))
  }

  function SimFramework(target: seq<FrameworkInfo>, candidate: seq<FrameworkInfo>): real {
    if target == [] || candidate == [] then 0.0 else Fraction(FrameworksFound(target, candidate), |target|)
  }

  // ----- the weighted average -----

  predicate HasRole(t: Fingerprint) {
    t.role != "" || t.name != ""
  }

  predicate HasNeighbors(t: Fingerprint) {
    t.prev != "" || t.next != "" || t.parentTag != ""
  }

  function ClassesOf(f: Fingerprint): set<string> {
    Words(f.Attribute("class"))
  }

  /** A dimension of the score, and whether the target has a signal in it. */
  datatype Signal = Signal(on: bool, weight: real)
  {
    function Whole(): real {
      if on then weight else 0.0
    }

    function Part(similarity: real): real {
      if on then weight * similarity else 0.0
    }
  }

  const INDEX_DIMENSION: nat := 6

  /** The eleven dimensions in the order they are added; the index always counts. */
  function Signals(w: Weights, t: Fingerprint): (s: seq<Signal>)
    ensures |s| == 11
  {
    [Signal(t.tag != "", w.tag), Signal(t.Attribute("id") != "", w.id), Signal(HasRole(t), w.roleName),
     Signal(ClassesOf(t) != {}, w.class_), Signal(KeyAttributes(t) != {}, w.attrs), Signal(t.text != "", w.text),
     Signal(true, w.index), Signal(HasNeighbors(t), w.neighbor), Signal(t.labelText != "", w.labelText),
     Signal(t.formId != "", w.container), Signal(t.framework != [], w.framework)]
  }

  function Similarities(t: Fingerprint, c: Fingerprint): (s: seq<real>)
    ensures |s| == 11
  {
    [SimEqual(t.tag, c.tag), SimEqual(t.Attribute("id"), c.Attribute("id")), SimRoleName(t, c),
     SimJaccard(ClassesOf(t), ClassesOf(c)), SimKeyAttributes(t, c), SimText(t.text, c.text),
     SimIndex(t.siblingIndex, c.siblingIndex), SimNeighbor(t, c), SimText(t.labelText, c.labelText),
     SimEqual(t.formId, c.formId), SimFramework(t.framework, c.framework)]
  }

  function TotalOf(signals: seq<Signal>): real {
    if signals == [] then 0.0 else TotalOf(signals[..|signals| - 1]) + signals[|signals| - 1].Whole()
  }

  function GainedOf(signals: seq<Signal>, sims: seq<real>): real
    requires |signals| == |sims|
  {
    if signals == [] then 0.0 else
    var n := |signals| - 1;
    GainedOf(signals[..n], sims[..n]) + signals[n].Part(sims[n])
  }

  function Total(w: Weights, t: Fingerprint): real {
    TotalOf(Signals(w, t))
  }

  function Gained(w: Weights, t: Fingerprint, c: Fingerprint): real {
    GainedOf(Signals(w, t), Similarities(t, c))
  }

  function Score(w: Weights, t: Fingerprint, c: Fingerprint): real {
    if Total(w, t) == 0.0 then 0.0 else Gained(w, t, c) / Total(w, t)
  }

  lemma NonNegativeProduct(a: real, b: real)
    requires a >= 0.0 && b >= 0.0
    ensures a * b >= 0.0
  {
  }

  lemma CancelPositive(x: real, b: real)
    requires b > 0.0
    ensures x * b >= 0.0 ==> x >= 0.0
    ensures x * b == 0.0 ==> x == 0.0
  {
  }

  lemma PartBounded(signal: Signal, similarity: real)
    requires signal.weight >= 0.0 && Unit(similarity)
    ensures 0.0 <= signal.Part(similarity) <= signal.Whole()
  {
    NonNegativeProduct(signal.weight, similarity);
    NonNegativeProduct(signal.weight, 1.0 - similarity);
    assert signal.weight * (1.0 - similarity) == signal.weight - signal.weight * similarity;
  }

  lemma {:induction false} GainedOfBounded(signals: seq<Signal>, sims: seq<real>)
    requires |signals| == |sims|
    requires forall i | 0 <= i < |signals| :: signals[i].weight >= 0.0 && Unit(sims[i])
    ensures 0.0 <= GainedOf(signals, sims) <= TotalOf(signals)
  {
    if signals != [] {
      var n := |signals| - 1;
      GainedOfBounded(signals[..n], sims[..n]);
      PartBounded(signals[n], sims[n]);
      hide Signal.Part, Signal.Whole;
    }
  }

  /** A dimension that loses nothing. */
  predicate Full(signal: Signal, similarity: real) {
    signal.on ==> similarity == 1.0
  }

  lemma {:induction false} GainedAll(signals: seq<Signal>, sims: seq<real>, lost: nat)
    requires |signals| == |sims| && (forall i | 0 <= i < |signals| && i != lost :: Full(signals[i], sims[i]))
    requires lost < |sims| ==> sims[lost] == 1.0 || sims[lost] == 0.0
    ensures GainedOf(signals, sims)
         == TotalOf(signals) - (if lost < |signals| && sims[lost] == 0.0 then signals[lost].Whole() else 0.0)
  {
    if signals != [] {
      var n := |signals| - 1;
      GainedAll(signals[..n], sims[..n], lost);
      assert Full(signals[n], sims[n]) || n == lost;
    }
  }

  lemma SimTextUnit(a: string, b: string)
    ensures Unit(SimText(a, b)) && (a != "" ==> SimText(a, a) == 1.0)
  {
    if a != "" || b != "" {
      EditsBounded(a, b);
      FractionIsUnit(Edits(a, b), MaxNat(|a|, |b|));
    }
    if a != "" {
      EditsZero(a, a);
      FractionIsUnit(0, |a|);
    }
    hide Edits, Fraction;
  }

  lemma SimIndexUnit(a: int, b: int)
    ensures Unit(SimIndex(a, b)) && (SimIndex(a, a) == if a >= 0 then 1.0 else 0.0)
  {
    if a >= 0 && b >= 0 && (a > 0 || b > 0) { FractionIsUnit(Distance(a, b), MaxNat(a, b)); }
    if a > 0 { FractionIsUnit(0, a); }
    hide Fraction;
  }

  lemma SimJaccardUnit(a: set<string>, b: set<string>)
    ensures Unit(SimJaccard(a, b)) && (a != {} ==> SimJaccard(a, a) == 1.0)
  {
    SubsetSize(a * b, a + b);
    if |a + b| != 0 { FractionIsUnit(|a * b|, |a + b|); }
    assert a + a == a && a * a == a;
    if a != {} { FractionIsUnit(|a|, |a|); }
    hide Fraction;
  }

  lemma SimKeyAttributesUnit(t: Fingerprint, c: Fingerprint)
    ensures Unit(SimKeyAttributes(t, c)) && (KeyAttributes(t) != {} ==> SimKeyAttributes(t, t) == 1.0)
  {
    SubsetSize(Matching(t, c), KeyAttributes(t));
    assert Matching(t, t) == KeyAttributes(t);
    hide Matching;
    if KeyAttributes(t) != {} {
      FractionIsUnit(|Matching(t, c)|, |KeyAttributes(t)|);
      FractionIsUnit(|KeyAttributes(t)|, |KeyAttributes(t)|);
    }
    hide Fraction, KeyAttributes;
  }

  lemma SimNeighborUnit(t: Fingerprint, c: Fingerprint)
    ensures Unit(SimNeighbor(t, c)) && (HasNeighbors(t) ==> SimNeighbor(t, t) == 1.0)
  {
    if NeighborsSeen(t) != 0 {
      FractionIsUnit(NeighborsSame(t, c), NeighborsSeen(t));
      FractionIsUnit(NeighborsSame(t, t), NeighborsSeen(t));
    }
    hide Fraction;
  }

  lemma {:induction false} FrameworksBounded(t: seq<FrameworkInfo>, c: seq<FrameworkInfo>)
    ensures FrameworksFound(t, c) <= |t|
    ensures (forall x | x in t :: x in c) ==> FrameworksFound(t, c) == |t|
  {
    if t != [] {
      FrameworksBounded(t[..|t| - 1], c);
      var last := t[|t| - 1];
      if last in c {
        var i :| 0 <= i < |c| && c[i] == last;
        assert Compatible(last, c[i]);
      }
    }
  }

  lemma SimFrameworkUnit(t: seq<FrameworkInfo>, c: seq<FrameworkInfo>)
    ensures Unit(SimFramework(t, c)) && (t != [] ==> SimFramework(t, t) == 1.0)
  {
    FrameworksBounded(t, c);
    FrameworksBounded(t, t);
    if t != [] {
      FractionIsUnit(FrameworksFound(t, c), |t|);
      FractionIsUnit(FrameworksFound(t, t), |t|);
    }
    hide Fraction, FrameworksFound;
  }

  lemma SimilaritiesAreUnit(t: Fingerprint, c: Fingerprint)
    ensures forall i | 0 <= i < 11 :: Unit(Similarities(t, c)[i])
  {
    SimTextUnit(t.text, c.text);
    SimTextUnit(t.labelText, c.labelText);
    SimIndexUnit(t.siblingIndex, c.siblingIndex);
    SimJaccardUnit(ClassesOf(t), ClassesOf(c));
    SimKeyAttributesUnit(t, c);
    SimNeighborUnit(t, c);
    SimFrameworkUnit(t.framework, c.framework);
    hide SimText, SimIndex, SimJaccard, SimKeyAttributes, SimNeighbor, SimFramework, KeyAttributes, Words;
  }

  lemma CloneIsFull(w: Weights, t: Fingerprint)
    ensures forall i | 0 <= i < 11 && i != INDEX_DIMENSION :: Full(Signals(w, t)[i], Similarities(t, t)[i])
    ensures Similarities(t, t)[INDEX_DIMENSION] == if t.siblingIndex >= 0 then 1.0 else 0.0
  {
    SimTextUnit(t.text, t.text);
    SimTextUnit(t.labelText, t.labelText);
    SimIndexUnit(t.siblingIndex, t.siblingIndex);
    SimJaccardUnit(ClassesOf(t), ClassesOf(t));
    SimKeyAttributesUnit(t, t);
    SimNeighborUnit(t, t);
    SimFrameworkUnit(t.framework, t.framework);
    hide SimText, SimIndex, SimJaccard, SimKeyAttributes, SimNeighbor, SimFramework, KeyAttributes, Words, HasNeighbors;
  }

  lemma GainedBounded(w: Weights, t: Fingerprint, c: Fingerprint)
    requires w.NonNegative()
    ensures 0.0 <= Gained(w, t, c) <= Total(w, t)
  {
    SimilaritiesAreUnit(t, c);
    assert forall i | 0 <= i < 11 :: Signals(w, t)[i].weight >= 0.0;
    hide Similarities, Signals, TotalOf, GainedOf;
    GainedOfBounded(Signals(w, t), Similarities(t, c));
  }

  /** A clone gains everything but, with a negative index, the weight of the index. */
  lemma CloneGains(w: Weights, t: Fingerprint)
    requires w.NonNegative()
    ensures Gained(w, t, t) == Total(w, t) - (if t.siblingIndex < 0 then w.index else 0.0)
  {
    CloneIsFull(w, t);
    assert Signals(w, t)[INDEX_DIMENSION] == Signal(true, w.index);
    hide Similarities, Signals, TotalOf, GainedOf;
    GainedAll(Signals(w, t), Similarities(t, t), INDEX_DIMENSION);
  }

  lemma Quotient(a: real, b: real)
    requires 0.0 <= a <= b && b > 0.0
    ensures Unit(a / b) && (a / b == 1.0 <==> a == b)
  {
    var x := a / b;
    assert x * b == a;
    CancelPositive(x, b);
    CancelPositive(1.0 - x, b);
    assert (1.0 - x) * b == b - x * b;
  }

  lemma ScoreIsUnit(w: Weights, t: Fingerprint, c: Fingerprint)
    requires w.NonNegative()
    ensures Unit(Score(w, t, c))
  {
    GainedBounded(w, t, c);
    if Total(w, t) != 0.0 { Quotient(Gained(w, t, c), Total(w, t)); }
    hide Gained, Total;
  }

  /** When an exact clone scores one: something counts, and a negative index does not. */
  predicate ClonesScore(w: Weights, t: Fingerprint) {
    Total(w, t) > 0.0 && (t.siblingIndex >= 0 || w.index == 0.0)
  }

  lemma CloneScoresOne(w: Weights, t: Fingerprint)
    requires w.NonNegative()
    ensures Score(w, t, t) == 1.0 <==> ClonesScore(w, t)
  {
    GainedBounded(w, t, t);
    CloneGains(w, t);
    if Total(w, t) != 0.0 { Quotient(Gained(w, t, t), Total(w, t)); }
    hide Gained, Total;
  }

  // ----- candidates and their order -----

  datatype Selector = Selector(kind: string, value: string, priority: int)

  /** A candidate of the page; `sound` is what the checks of its selector and fingerprint decide. */
  datatype Found = Found(selector: Selector, fingerprint: Fingerprint, sound: bool)

  datatype Candidate = Candidate(found: Found, score: real)

  /** `candidateLess`: score first, the rest only to make the order total. */
  predicate Less(a: Candidate, b: Candidate) {
    var x, y := a.found.selector, b.found.selector;
    if a.score != b.score then a.score > b.score
    else if x.kind != y.kind then Before(x.kind, y.kind)
    else if x.value != y.value then Before(x.value, y.value)
    else if x.priority != y.priority then x.priority < y.priority
    else Before(CanonicalKey(a.found.fingerprint), CanonicalKey(b.found.fingerprint))
  }

  predicate Same(a: Candidate, b: Candidate) {
    a.score == b.score && a.found.selector == b.found.selector && CanonicalKey(a.found.fingerprint) == CanonicalKey(b.found.fingerprint)
  }

  /** Of two candidates exactly one comes first, unless they are the same. */
  lemma OrderIsTotal(a: Candidate, b: Candidate)
    ensures !(Less(a, b) && Less(b, a))
    ensures Same(a, b) <==> !Less(a, b) && !Less(b, a)
  {
    BeforeIsAsymmetric(a.found.selector.kind, b.found.selector.kind);
    BeforeIsAsymmetric(a.found.selector.value, b.found.selector.value);
    BeforeIsAsymmetric(CanonicalKey(a.found.fingerprint), CanonicalKey(b.found.fingerprint));
    hide Before;
  }

  /** The stable sort of the standard library, as insertion behind everything not greater. */
  function Insert(c: Candidate, s: seq<Candidate>): seq<Candidate> {
    if s == [] || !Less(c, s[|s| - 1]) then s + [c]
    else Insert(c, s[..|s| - 1]) + [s[|s| - 1]]
  }

  function Sorted(s: seq<Candidate>): seq<Candidate> {
    if s == [] then [] else Insert(s[|s| - 1], Sorted(s[..|s| - 1]))
  }

  predicate InOrder(s: seq<Candidate>) {
    forall i | 0 < i < |s| :: !Less(s[i], s[i - 1])
  }

  lemma {:induction false} InsertPermutes(c: Candidate, s: seq<Candidate>)
    ensures multiset(Insert(c, s)) == multiset(s) + multiset{c}
  {
    hide Less;
    if s != [] && Less(c, s[|s| - 1]) {
      InsertPermutes(c, s[..|s| - 1]);
      assert s == s[..|s| - 1] + [s[|s| - 1]];
    }
  }

  lemma {:induction false} InsertKeepsOrder(c: Candidate, s: seq<Candidate>)
    requires InOrder(s)
    ensures InOrder(Insert(c, s))
    ensures var r := Insert(c, s); r != [] && (r[|r| - 1] == c || (s != [] && r[|r| - 1] == s[|s| - 1]))
  {
    hide Less, Same;
    if s != [] && Less(c, s[|s| - 1]) {
      var init, last := s[..|s| - 1], s[|s| - 1];
      assert forall i | 0 <= i < |init| :: init[i] == s[i];
      InsertKeepsOrder(c, init);
      OrderIsTotal(c, last);
    }
  }

  lemma {:induction false} SortedPermutes(s: seq<Candidate>)
    ensures multiset(Sorted(s)) == multiset(s)
  {
    hide Insert;
    if s != [] {
      SortedPermutes(s[..|s| - 1]);
      InsertPermutes(s[|s| - 1], Sorted(s[..|s| - 1]));
      assert s == s[..|s| - 1] + [s[|s| - 1]];
    }
  }

  lemma {:induction false} SortedInOrder(s: seq<Candidate>)
    ensures InOrder(Sorted(s))
  {
    hide Insert, Less;
    if s != [] {
      SortedInOrder(s[..|s| - 1]);
      InsertKeepsOrder(s[|s| - 1], Sorted(s[..|s| - 1]));
      hide InOrder;
    }
  }

  /** Sorting permutes the candidates into their order. */
  lemma SortedIsSorted(s: seq<Candidate>)
    ensures InOrder(Sorted(s)) && multiset(Sorted(s)) == multiset(s)
  {
    SortedInOrder(s);
    SortedPermutes(s);
    hide Sorted, InOrder;
  }

  /** In an ordered list nothing scores higher than the first. */
  lemma {:induction false} FirstScoresHighest(s: seq<Candidate>, i: nat)
    requires InOrder(s) && i < |s|
    ensures s[i].score <= s[0].score
  {
    if i > 0 {
      FirstScoresHighest(s, i - 1);
      assert !Less(s[i], s[i - 1]);
    }
  }

  // ----- the order does not depend on where it starts -----

  /** All that the order looks at. */
  datatype Place = Place(score: real, selector: Selector, key: string)

  function PlaceOf(c: Candidate): Place {
    Place(c.score, c.found.selector, CanonicalKey(c.found.fingerprint))
  }

  /** The same selector, and the same fingerprint but perhaps for its framework. */
  predicate AlikeBut(a: Found, b: Found) {
    a.selector == b.selector && a.fingerprint.(framework := []) == b.fingerprint.(framework := [])
  }

  /** Candidates at one place agree in everything but the framework of their fingerprints. */
  lemma SamePlace(a: Candidate, b: Candidate)
    ensures PlaceOf(a) == PlaceOf(b) <==> Same(a, b)
    ensures Same(a, b) <==> a.score == b.score && AlikeBut(a.found, b.found)
  {
    KeyIsCanonical(a.found.fingerprint, b.found.fingerprint);
    hide CanonicalKey;
  }

  lemma LessIsTransitive(a: Candidate, b: Candidate, c: Candidate)
    requires Less(a, b) && Less(b, c)
    ensures Less(a, c)
  {
    var x, y, z := a.found.selector, b.found.selector, c.found.selector;
    hide CanonicalKey, Before;
    if a.score == b.score == c.score {
      if x.kind != y.kind && y.kind != z.kind {
        BeforeIsTransitive(x.kind, y.kind, z.kind);
        BeforeIsAsymmetric(x.kind, y.kind);
      } else if x.kind == y.kind == z.kind {
        if x.value != y.value && y.value != z.value {
          BeforeIsTransitive(x.value, y.value, z.value);
          BeforeIsAsymmetric(x.value, y.value);
        } else if x.value == y.value == z.value && x.priority == y.priority == z.priority {
          BeforeIsTransitive(CanonicalKey(a.found.fingerprint), CanonicalKey(b.found.fingerprint),
            CanonicalKey(c.found.fingerprint));
        }
      }
    }
  }

  /** Nothing in an ordered list comes before its first. */
  lemma {:induction false} FirstIsFirst(s: seq<Candidate>, i: nat)
    requires InOrder(s) && i < |s|
    ensures !Less(s[i], s[0])
  {
    OrderIsTotal(s[0], s[i]);
    if i > 0 {
      FirstIsFirst(s, i - 1);
      OrderIsTotal(s[i - 1], s[0]);
      OrderIsTotal(s[i], s[i - 1]);
      if Less(s[i], s[0]) {
        if Less(s[0], s[i - 1]) { LessIsTransitive(s[i], s[0], s[i - 1]); }
      }
      hide Before, CanonicalKey;
    }
  }

  function Mapped<A, B>(f: A -> B, s: seq<A>): (t: seq<B>)
    ensures |t| == |s| && forall i | 0 <= i < |s| :: t[i] == f(s[i])
  {
    seq(|s|, i requires 0 <= i < |s| => f(s[i]))
  }

  lemma MappedWithout<A, B>(f: A -> B, s: seq<A>, i: nat)
    requires i < |s|
    ensures multiset(s) == multiset(s[..i] + s[i + 1..]) + multiset{s[i]}
    ensures multiset(Mapped(f, s)) == multiset(Mapped(f, s[..i] + s[i + 1..])) + multiset{f(s[i])}
  {
    var t, rest := Mapped(f, s), s[..i] + s[i + 1..];
    assert s == s[..i] + [s[i]] + s[i + 1..];
    assert t == t[..i] + [t[i]] + t[i + 1..];
    assert Mapped(f, rest) == t[..i] + t[i + 1..];
  }

  lemma OneOut<X>(m: multiset<X>, n: multiset<X>, x: X)
    requires m + multiset{x} == n + multiset{x}
    ensures m == n
  {
    assert m == m + multiset{x} - multiset{x} && n == n + multiset{x} - multiset{x};
  }

  /** Where a permutation has the first of `a`. */
  lemma FirstIsFound<A>(a: seq<A>, b: seq<A>) returns (i: nat)
    requires a != [] && multiset(a) == multiset(b)
    ensures i < |b| && b[i] == a[0]
  {
    assert a[0] in multiset(b);
    i :| 0 <= i < |b| && b[i] == a[0];
  }

  lemma NothingLeft<A>(b: seq<A>)
    requires multiset(b) == multiset{}
    ensures b == []
  {
    assert |multiset(b)| == |b|;
  }

  /** Mapping a permutation permutes what is mapped. */
  lemma {:induction false} MappedPermutes<A, B>(f: A -> B, a: seq<A>, b: seq<A>)
    requires multiset(a) == multiset(b)
    ensures multiset(Mapped(f, a)) == multiset(Mapped(f, b))
  {
    hide *;
    if a == [] {
      NothingLeft(b);
      assert a == b;
    } else {
      var i := FirstIsFound(a, b);
      var a', b' := a[1..], b[..i] + b[i + 1..];
      MappedWithout(f, a, 0);
      MappedWithout(f, b, i);
      assert a[..0] + a[1..] == a';
      OneOut(multiset(a'), multiset(b'), a[0]);
      MappedPermutes(f, a', b');
    }
  }

  const PLACE: Candidate -> Place := (c: Candidate) => PlaceOf(c)

  lemma PlacesFollow(s: seq<Candidate>)
    requires s != []
    ensures Mapped(PLACE, s) == [PlaceOf(s[0])] + Mapped(PLACE, s[1..])
    ensures multiset(Mapped(PLACE, s[1..])) == multiset(Mapped(PLACE, s)) - multiset{PlaceOf(s[0])}
  {
    hide PlaceOf;
    assert Mapped(PLACE, s) == [PlaceOf(s[0])] + Mapped(PLACE, s[1..]);
  }

  lemma TailInOrder(s: seq<Candidate>)
    requires s != [] && InOrder(s)
    ensures InOrder(s[1..])
  {
    hide Less;
    forall i | 0 < i < |s[1..]|
      ensures !Less(s[1..][i], s[1..][i - 1])
    {
      assert !Less(s[i + 1], s[i]);
    }
  }

  /** Some candidate of `s` is at the place of the first of `t`, so none there comes before it. */
  lemma FirstPlaceFound(s: seq<Candidate>, t: seq<Candidate>)
    requires InOrder(s) && s != [] && t != [] && PlaceOf(t[0]) in multiset(Mapped(PLACE, s))
    ensures !Less(t[0], s[0])
  {
    var places := Mapped(PLACE, s);
    var i :| 0 <= i < |places| && places[i] == PlaceOf(t[0]);
    FirstIsFirst(s, i);
    SamePlace(s[i], t[0]);
    hide CanonicalKey, Before;
  }

  /** Two ordered lists of the same candidates agree place by place. */
  lemma {:induction false} OrderIsUnique(s: seq<Candidate>, t: seq<Candidate>)
    requires InOrder(s) && InOrder(t) && multiset(Mapped(PLACE, s)) == multiset(Mapped(PLACE, t))
    ensures Mapped(PLACE, s) == Mapped(PLACE, t)
  {
    assert |multiset(Mapped(PLACE, s))| == |s| && |multiset(Mapped(PLACE, t))| == |t|;
    if s != [] {
      PlacesFollow(s);
      PlacesFollow(t);
      TailInOrder(s);
      TailInOrder(t);
      assert PlaceOf(t[0]) in Mapped(PLACE, t) && PlaceOf(s[0]) in Mapped(PLACE, s);
      FirstPlaceFound(s, t);
      FirstPlaceFound(t, s);
      OrderIsTotal(s[0], t[0]);
      SamePlace(s[0], t[0]);
      OrderIsUnique(s[1..], t[1..]);
      hide Less, Same, Mapped, InOrder, PlaceOf;
    }
  }

  // ----- narrowing -----

  /** The most any candidate's path has in common with the target's. */
  function MostInCommon(path: seq<string>, all: seq<Found>): nat {
    if all == [] then 0
    else MaxNat(MostInCommon(path, all[..|all| - 1]), Lcs(path, all[|all| - 1].fingerprint.path))
  }

  /** The candidates that reach it, in their order. */
  function Reaching(path: seq<string>, all: seq<Found>, most: nat): seq<Found> {
    if all == [] then [] else
    var earlier, last := Reaching(path, all[..|all| - 1], most), all[|all| - 1];
    if Lcs(path, last.fingerprint.path) >= most then earlier + [last] else earlier
  }

  function Narrowed(path: seq<string>, all: seq<Found>): seq<Found> {
    Reaching(path, all, MostInCommon(path, all))
  }

  lemma {:induction false} ReachingIs(path: seq<string>, all: seq<Found>, most: nat, c: Found)
    ensures c in Reaching(path, all, most) <==> c in all && Lcs(path, c.fingerprint.path) >= most
  {
    if all != [] {
      ReachingIs(path, all[..|all| - 1], most, c);
      assert all == all[..|all| - 1] + [all[|all| - 1]];
    }
    hide Lcs;
  }

  lemma {:induction false} MostIsReached(path: seq<string>, all: seq<Found>)
    ensures forall c | c in all :: Lcs(path, c.fingerprint.path) <= MostInCommon(path, all)
    ensures all != [] ==> exists c :: c in all && Lcs(path, c.fingerprint.path) == MostInCommon(path, all)
  {
    if all != [] {
      var init, last := all[..|all| - 1], all[|all| - 1];
      MostIsReached(path, init);
      assert all == init + [last];
      if MostInCommon(path, all) == Lcs(path, last.fingerprint.path) {
        assert last in all;
      } else {
        var c :| c in init && Lcs(path, c.fingerprint.path) == MostInCommon(path, init);
        assert c in all;
      }
    }
    hide Lcs;
  }

  /** Narrowing keeps exactly the candidates no other one beats, and always some. */
  lemma NarrowedIsArgmax(path: seq<string>, all: seq<Found>, c: Found)
    ensures c in Narrowed(path, all) <==>
      c in all && forall x | x in all :: Lcs(path, x.fingerprint.path) <= Lcs(path, c.fingerprint.path)
    ensures all != [] ==> Narrowed(path, all) != []
  {
    var most := MostInCommon(path, all);
    MostIsReached(path, all);
    ReachingIs(path, all, most, c);
    if all != [] {
      var x :| x in all && Lcs(path, x.fingerprint.path) == most;
      ReachingIs(path, all, most, x);
    }
    hide Lcs, Reaching, MostInCommon;
  }

  lemma {:induction false} ReachingCounts(path: seq<string>, all: seq<Found>, most: nat, c: Found)
    ensures multiset(Reaching(path, all, most))[c]
         == if Lcs(path, c.fingerprint.path) >= most then multiset(all)[c] else 0
  {
    if all != [] {
      var init, last := all[..|all| - 1], all[|all| - 1];
      ReachingCounts(path, init, most, c);
      assert all == init + [last];
    }
    hide Lcs;
  }

  /** Narrowing a permuted page narrows to the same candidates, permuted. */
  lemma NarrowedPermutes(path: seq<string>, a: seq<Found>, b: seq<Found>)
    requires multiset(a) == multiset(b)
    ensures multiset(Narrowed(path, a)) == multiset(Narrowed(path, b))
  {
    MostIsReached(path, a);
    MostIsReached(path, b);
    assert forall c :: c in a <==> c in multiset(a);
    assert forall c :: c in b <==> c in multiset(b);
    hide Lcs, MostInCommon, Reaching;
    if a == [] {
      assert |multiset(b)| == |b| && multiset(b) == multiset{};
    } else {
      assert a[0] in multiset(b) && b != [];
    }
    assert MostInCommon(path, a) == MostInCommon(path, b);
    forall c
      ensures multiset(Narrowed(path, a))[c] == multiset(Narrowed(path, b))[c]
    {
      ReachingCounts(path, a, MostInCommon(path, a), c);
      ReachingCounts(path, b, MostInCommon(path, b), c);
    }
  }

  /** `shortestPathLength`: room for the shorter of the two paths, whichever candidate is compared. */
  method WorkspaceLength(path: seq<string>, all: seq<Found>) returns (length: nat)
    ensures forall c | c in all :: MinNat(|path|, |c.fingerprint.path|) < length
    ensures length > 0
  {
    length := 0;
    for i := 0 to |all|
      invariant forall j | 0 <= j < i :: MinNat(|path|, |all[j].fingerprint.path|) <= length
    {
      var candidate := |all[i].fingerprint.path|;
      if |path| < candidate { candidate := |path|; }
      if candidate > length { length := candidate; }
    }
    length := length + 1;
  }

  /** `narrowByPathLCS`: one workspace for all comparisons. */
  method NarrowByPath(path: seq<string>, all: seq<Found>) returns (narrowed: seq<Found>)
    ensures narrowed == Narrowed(path, all)
  {
    if all == [] { return all; }
    var size := WorkspaceLength(path, all);
    var workspace := new nat[size];
    var distances, most := new nat[|all|], 0;
    hide Lcs;
    for i := 0 to |all|
      invariant most == MostInCommon(path, all[..i])
      invariant forall j | 0 <= j < i :: distances[j] == Lcs(path, all[j].fingerprint.path)
    {
      var rows, columns := path, all[i].fingerprint.path;
      assert all[i] in all;
      LcsSymmetric(path, all[i].fingerprint.path);
      if |columns| > |rows| { rows, columns := columns, rows; }
      var d := LcsInBuffer(rows, columns, workspace);
      distances[i] := d;
      assert all[..i + 1][..i] == all[..i];
      if d > most { most := d; }
    }
    narrowed := [];
    assert all[..|all|] == all;
    for i := 0 to |all|
      invariant narrowed == Reaching(path, all[..i], most)
    {
      assert all[..i + 1][..i] == all[..i];
      if distances[i] >= most { narrowed := narrowed + [all[i]]; }
    }
  }

  // ----- healing -----

  datatype Outcome = Applied | BelowCap | NoCandidate

  datatype Decision = Decision(outcome: Outcome, best: Option<Candidate>, needsReview: bool, candidates: seq<Candidate>)

  datatype HealError = ThresholdsInvalid | WeightsInvalid | SnapshotFailed | DecisionInvalid

  predicate CandidateOk(c: Candidate) {
    c.found.sound && Unit(c.score)
  }

  /** `Decision.Validate`. */
  predicate DecisionOk(d: Decision) {
    && match d.outcome {
         case Applied => d.best.Some? && !d.needsReview
         case BelowCap => d.best.Some? && d.needsReview
         case NoCandidate => d.best.None? && !d.needsReview
       }
    && (d.best.Some? ==> CandidateOk(d.best.value))
    && (forall i | 0 <= i < |d.candidates| :: CandidateOk(d.candidates[i]))
    && InOrder(d.candidates)
    && (d.best.Some? ==> d.candidates != [] && Same(d.best.value, d.candidates[0]))
  }

  function Scored(w: Weights, t: Fingerprint, found: seq<Found>): (s: seq<Candidate>)
    ensures |s| == |found|
    ensures forall i | 0 <= i < |s| :: s[i] == Candidate(found[i], Score(w, t, found[i].fingerprint))
  {
    seq(|found|, i requires 0 <= i < |found| => Candidate(found[i], Score(w, t, found[i].fingerprint)))
  }

  /** What the two thresholds make of an ordered list of scored candidates. */
  function Classified(caps: Thresholds, scored: seq<Candidate>): Decision {
    if scored == [] then Decision(NoCandidate, None, false, [])
    else
      var best := scored[0];
      if best.score >= caps.appliedCap then Decision(Applied, Some(best), false, scored)
      else if best.score >= caps.reviewCap then Decision(BelowCap, Some(best), true, scored)
      else Decision(NoCandidate, None, false, scored)
  }

  function HealDecision(w: Weights, caps: Thresholds, t: Fingerprint, all: seq<Found>): Decision {
    Classified(caps, Sorted(Scored(w, t, Narrowed(t.path, all))))
  }

  /** `DefaultHealer.Heal`. */
  method Heal(w: Weights, caps: Thresholds, target: Fingerprint, snapshot: Option<seq<Found>>)
    returns (r: Result<Decision, HealError>)
    ensures !caps.Valid() ==> r == Err(ThresholdsInvalid)
    ensures caps.Valid() && !w.Valid() ==> r == Err(WeightsInvalid)
    ensures caps.Valid() && w.Valid() && snapshot.None? ==> r == Err(SnapshotFailed)
    ensures caps.Valid() && w.Valid() && snapshot.Some? ==>
      var d := HealDecision(w, caps, target, snapshot.value);
      r == if DecisionOk(d) then Ok(d) else Err(DecisionInvalid)
  {
    if !caps.Valid() { return Err(ThresholdsInvalid); }
    if !w.Valid() { return Err(WeightsInvalid); }
    if snapshot.None? { return Err(SnapshotFailed); }
    hide Score, Lcs, DecisionOk;
    var decision := Decision(NoCandidate, None, false, []);
    if snapshot.value != [] {
      var narrowed := NarrowByPath(target.path, snapshot.value);
      var scored: seq<Candidate> := [];
      for i := 0 to |narrowed|
        invariant scored == Scored(w, target, narrowed)[..i]
      {
        scored := scored + [Candidate(narrowed[i], Score(w, target, narrowed[i].fingerprint))];
      }
      assert scored == Scored(w, target, narrowed);
      var ordered := Sorted(scored);
      decision := Classified(caps, ordered);
    }
    if !DecisionOk(decision) { return Err(DecisionInvalid); }
    return Ok(decision);
  }

  function Ranked(w: Weights, t: Fingerprint, all: seq<Found>): seq<Candidate> {
    Sorted(Scored(w, t, Narrowed(t.path, all)))
  }

  /** What a ranked candidate is. */
  lemma RankedAre(w: Weights, t: Fingerprint, all: seq<Found>, c: Candidate)
    requires w.NonNegative() && c in Ranked(w, t, all)
    ensures c.found in all && c.score == Score(w, t, c.found.fingerprint) && Unit(c.score)
  {
    var narrowed := Narrowed(t.path, all);
    var scored := Scored(w, t, narrowed);
    SortedIsSorted(scored);
    assert c in multiset(Sorted(scored));
    var i :| 0 <= i < |scored| && scored[i] == c;
    assert narrowed[i] in narrowed;
    NarrowedIsArgmax(t.path, all, narrowed[i]);
    ScoreIsUnit(w, t, narrowed[i].fingerprint);
    hide Score, Sorted, Narrowed, Lcs;
  }

  lemma RankedIsOrdered(w: Weights, t: Fingerprint, all: seq<Found>)
    ensures InOrder(Ranked(w, t, all)) && (all != [] ==> Ranked(w, t, all) != [])
  {
    var scored := Scored(w, t, Narrowed(t.path, all));
    SortedIsSorted(scored);
    if all != [] {
      NarrowedIsArgmax(t.path, all, all[0]);
      assert |multiset(Sorted(scored))| == |Sorted(scored)| && |multiset(scored)| == |scored|;
    }
    hide Score, Sorted, Narrowed, Lcs, InOrder;
  }

  lemma ClassifiedIsValid(caps: Thresholds, ranked: seq<Candidate>)
    requires InOrder(ranked) && forall c | c in ranked :: CandidateOk(c)
    ensures DecisionOk(Classified(caps, ranked)) && Classified(caps, ranked).candidates == ranked
  {
    if ranked != [] { OrderIsTotal(ranked[0], ranked[0]); }
    hide Less, Same;
  }

  /** With sound candidates every score is a share of one, the decision is valid, and its best beats all others. */
  lemma HealIsValid(w: Weights, caps: Thresholds, t: Fingerprint, all: seq<Found>)
    requires w.Valid() && forall c | c in all :: c.sound
    ensures DecisionOk(HealDecision(w, caps, t, all))
    ensures var d := HealDecision(w, caps, t, all);
            && d.candidates == Ranked(w, t, all)
            && (all != [] ==> d.candidates != [])
            && (forall c | c in d.candidates :: c.found in all && c.score == Score(w, t, c.found.fingerprint))
            && (forall i | 0 <= i < |d.candidates| :: d.candidates[i].score <= d.candidates[0].score)
  {
    var ranked := Ranked(w, t, all);
    RankedIsOrdered(w, t, all);
    forall c | c in ranked
      ensures CandidateOk(c) && c.found in all && c.score == Score(w, t, c.found.fingerprint)
    {
      RankedAre(w, t, all, c);
    }
    forall i | 0 <= i < |ranked|
      ensures ranked[i].score <= ranked[0].score
    {
      FirstScoresHighest(ranked, i);
    }
    ClassifiedIsValid(caps, ranked);
    assert HealDecision(w, caps, t, all) == Classified(caps, ranked);
    hide *;
  }

  /**
   Clone recovery: when an exact clone of the lost element is on the page, and a
   clone of it can score one at all, healing applies a candidate that scores one.
   */
  lemma CloneIsRecovered(w: Weights, caps: Thresholds, t: Fingerprint, all: seq<Found>, clone: Found)
    requires w.Valid() && caps.Valid() && forall c | c in all :: c.sound
    requires clone in all && clone.fingerprint == t && ClonesScore(w, t)
    ensures var d := HealDecision(w, caps, t, all);
            d.outcome.Applied? && d.best.Some? && d.best.value.score == 1.0 && DecisionOk(d)
  {
    HealIsValid(w, caps, t, all);
    CloneScoresOne(w, t);
    CloneSurvives(t.path, all, clone);
    var narrowed := Narrowed(t.path, all);
    var scored := Scored(w, t, narrowed);
    var ordered := Sorted(scored);
    SortedIsSorted(scored);
    var i :| 0 <= i < |narrowed| && narrowed[i] == clone;
    assert scored[i] in multiset(ordered);
    var j :| 0 <= j < |ordered| && ordered[j] == scored[i];
    ScoreIsUnit(w, t, ordered[0].found.fingerprint);
    var d := HealDecision(w, caps, t, all);
    assert d == Classified(caps, ordered) && d.candidates == ordered;
    assert ordered[0] in ordered && ordered[j].score <= ordered[0].score;
    hide Score, DecisionOk, Less, Sorted, Narrowed, Scored, HealDecision;
  }

  /** Its path has everything in common with the target's, so narrowing keeps a clone. */
  lemma CloneSurvives(path: seq<string>, all: seq<Found>, clone: Found)
    requires clone in all && clone.fingerprint.path == path
    ensures clone in Narrowed(path, all)
  {
    forall x | x in all
      ensures Lcs(path, x.fingerprint.path) <= Lcs(path, path)
    {
      LcsOfSelf(path, x.fingerprint.path);
    }
    NarrowedIsArgmax(path, all, clone);
  }

  /** An index the target does not have is lost on every candidate. */
  lemma {:induction false} GainedLess(signals: seq<Signal>, sims: seq<real>, lost: nat)
    requires |signals| == |sims| && lost < |signals| && sims[lost] == 0.0
    requires forall i | 0 <= i < |signals| :: signals[i].weight >= 0.0 && Unit(sims[i])
    ensures GainedOf(signals, sims) <= TotalOf(signals) - signals[lost].Whole()
  {
    var n := |signals| - 1;
    if lost == n {
      GainedOfBounded(signals[..n], sims[..n]);
    } else {
      GainedLess(signals[..n], sims[..n], lost);
      PartBounded(signals[n], sims[n]);
      hide Signal.Part, Signal.Whole;
    }
  }

  /** Where a clone cannot score one, nothing can. */
  lemma NoneScoresOne(w: Weights, t: Fingerprint, c: Fingerprint)
    requires w.NonNegative() && !ClonesScore(w, t)
    ensures Score(w, t, c) < 1.0
  {
    GainedBounded(w, t, c);
    if Total(w, t) != 0.0 {
      SimilaritiesAreUnit(t, c);
      assert Signals(w, t)[INDEX_DIMENSION] == Signal(true, w.index);
      assert Similarities(t, c)[INDEX_DIMENSION] == 0.0;
      assert forall i | 0 <= i < 11 :: Signals(w, t)[i].weight >= 0.0;
      hide Similarities, Signals, TotalOf, GainedOf;
      GainedLess(Signals(w, t), Similarities(t, c), INDEX_DIMENSION);
      Quotient(Gained(w, t, c), Total(w, t));
    }
  }

  /** With a clone on the page, the best candidate scores one exactly when clones can. */
  lemma BestScoresOneExactly(w: Weights, caps: Thresholds, t: Fingerprint, all: seq<Found>, clone: Found)
    requires w.Valid() && caps.Valid() && forall c | c in all :: c.sound
    requires clone in all && clone.fingerprint == t
    ensures var d := HealDecision(w, caps, t, all);
            d.candidates != [] && (d.candidates[0].score == 1.0 <==> ClonesScore(w, t))
  {
    HealIsValid(w, caps, t, all);
    var d := HealDecision(w, caps, t, all);
    assert all != [] && d.candidates[0] in d.candidates;
    if ClonesScore(w, t) {
      CloneIsRecovered(w, caps, t, all, clone);
    } else {
      NoneScoresOne(w, t, d.candidates[0].found.fingerprint);
    }
    hide HealDecision, Score, DecisionOk, ClonesScore, Ranked;
  }

  lemma ScoredIsMapped(w: Weights, t: Fingerprint, found: seq<Found>)
    ensures Scored(w, t, found) == Mapped((f: Found) => Candidate(f, Score(w, t, f.fingerprint)), found)
  {
  }

  /**
   The ranking does not depend on the order in which the page lists its
   candidates: place by place it has the same score, the same selector and the
   same fingerprint, but perhaps for the framework.
   */
  lemma RankingIgnoresPageOrder(w: Weights, t: Fingerprint, a: seq<Found>, b: seq<Found>)
    requires multiset(a) == multiset(b)
    ensures |Ranked(w, t, a)| == |Ranked(w, t, b)|
    ensures forall i | 0 <= i < |Ranked(w, t, a)| :: Same(Ranked(w, t, a)[i], Ranked(w, t, b)[i])
  {
    var scoring := (f: Found) => Candidate(f, Score(w, t, f.fingerprint));
    var m, n := Narrowed(t.path, a), Narrowed(t.path, b);
    var r, s := Ranked(w, t, a), Ranked(w, t, b);
    NarrowedPermutes(t.path, a, b);
    ScoredIsMapped(w, t, m);
    ScoredIsMapped(w, t, n);
    MappedPermutes(scoring, m, n);
    SortedIsSorted(Scored(w, t, m));
    SortedIsSorted(Scored(w, t, n));
    hide Narrowed, Scored, Sorted, Score, Less, Same, PlaceOf;
    MappedPermutes(PLACE, r, s);
    OrderIsUnique(r, s);
    forall i | 0 <= i < |r|
      ensures Same(r[i], s[i])
    {
      assert Mapped(PLACE, r)[i] == Mapped(PLACE, s)[i];
      SamePlace(r[i], s[i]);
    }
  }

  lemma PairStays(a: Candidate, b: Candidate)
    requires !Less(b, a)
    ensures Sorted([a, b]) == [a, b]
  {
    hide Less;
    assert [a, b][..1] == [a] && [a][..0] == [];
    assert Sorted([]) == [] && Insert(a, []) == [a];
    assert Sorted([a]) == [a];
    assert Insert(b, [a]) == [a] + [b];
  }

  /** What the order cannot tell apart stays as the page listed it: there the framework can follow the page. */
  lemma TiesKeepPageOrder(a: Candidate, b: Candidate)
    requires Same(a, b)
    ensures Sorted([a, b]) == [a, b] && Sorted([b, a]) == [b, a]
  {
    OrderIsTotal(a, b);
    hide Less, Same;
    PairStays(a, b);
    PairStays(b, a);
  }
}

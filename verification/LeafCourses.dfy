/**
 What a leaf asks of its host, written as one flat list of demands, and what
 follows from the first demand that is not met. The list is an account of
 domain/node/step.go, composite.go and validation.go of its own: it shares no
 branch with the scripts of the phase machine, which are shown to agree with it.
 */
module LeafCourses {
  import opened Wrappers
  import opened Parameters
  import opened Plan
  import opened Phases
  import opened Execution

  datatype Demand =
    | Goes                    // pacing, the end of the lifecycle, a wait, a recovery
    | Opens                   // the lifecycle begins
    | Does                    // expanding texts, acting, checking
    | Finds(result: Location) // the lookup ends this way
    | Records(phase: Phase)   // the sink takes the event

  predicate Met(h: Host, tick: nat, leaf: Leaf, seen: Scope, demand: Demand) {
    match demand
    case Goes => h.proceeds(tick)
    case Opens => h.opens(tick, leaf)
    case Does => h.performs(tick, seen)
    case Finds(result) => h.locates(tick) == result
    case Records(_) => h.accepts(tick)
  }

  const BEGINNING := [Goes, Records(Running), Opens]
  const ENDING := [Records(Succeeded), Goes]

  /** Texts are expanded where the action takes any. */
  function Texts(leaf: Leaf): seq<Demand> {
    match leaf
    case ActionLeaf(action, _, _) => if action in {Navigate, Input, Select, Press} then [Does] else []
    case _ => []
  }

  predicate LooksUp(leaf: Leaf) {
    leaf.ActionLeaf? && leaf.action !in {Navigate, Press}
  }

  /** When a leaf that starts at `t` looks its element up. */
  function LookupTick(t: nat, leaf: Leaf): nat {
    t + |BEGINNING| + |Texts(leaf)|
  }

  /** The way to an element that was found, or is missing and may be missing, or is missing and gets recovered. */
  function Search(optional: bool, healing: bool, lookup: Location): seq<Demand> {
    if lookup.NotFound? && optional then [Finds(NotFound)]
    else if lookup.NotFound? && healing then
      [Finds(NotFound), Records(Healing), Goes, Records(Transitioning), Does]
    else [Finds(Found), Records(Transitioning), Does]
  }

  function Middle(leaf: Leaf, healing: bool, lookup: Location): seq<Demand> {
    match leaf
    case ActionLeaf(_, _, optional) => if LooksUp(leaf) then Search(optional, healing, lookup) else [Does]
    case WaitLeaf(_, _, _) => [Goes]
    case ValidationLeaf(_, _) => [Records(Validating), Does]
    case GroupLeaf(_, _) => [Records(Validating), Does]
  }

  /** All that a leaf demands, one consultation after the other. */
  function Course(leaf: Leaf, healing: bool, lookup: Location): seq<Demand> {
    BEGINNING + Texts(leaf) + Middle(leaf, healing, lookup) + ENDING
  }

  /** The course of a leaf that starts at `t`. */
  function CourseAt(h: Host, t: nat, leaf: Leaf): seq<Demand> {
    Course(leaf, h.healing, h.locates(LookupTick(t, leaf)))
  }

  function PhasesIn(demands: seq<Demand>): seq<Phase> {
    if demands == [] then [] else
    (if demands[0].Records? then [demands[0].phase] else []) + PhasesIn(demands[1..])
  }

  /** The first `k` demands are met and the next, if there is one, is not. */
  predicate MetUpTo(h: Host, t: nat, leaf: Leaf, seen: Scope, demands: seq<Demand>, k: nat) {
    && k <= |demands|
    && (forall i | 0 <= i < k :: Met(h, t + i, leaf, seen, demands[i]))
    && (k < |demands| ==> !Met(h, t + k, leaf, seen, demands[k]))
  }

  /** The one attempt to record how a leaf failed: the cancellation is asked for at `tick`, the sink right after. */
  function Closing(h: Host, tick: nat): seq<Phase> {
    if !h.accepts(tick + 1) then [] else if h.canceled(tick) then [Canceled] else [Failed]
  }

  /**
   How a leaf ends whose demand `k` is not met. Before RUNNING is recorded there is
   nothing to end; after SUCCEEDED, and where a wait is refused its SUCCEEDED, no
   terminal phase is attempted; the lifecycle is completed only once it has begun.
   */
  function Broken(h: Host, t: nat, leaf: Leaf, demands: seq<Demand>, k: nat): Script
    requires k < |demands|
  {
    var phases := PhasesIn(demands[..k]);
    if k < 2 || k == |demands| - 1 then Script(phases, false, t + k + 1)
    else if k == 2 then Script(phases + Closing(h, t + k + 1), false, t + k + 3)
    else if leaf.WaitLeaf? && demands[k] == Records(Succeeded) then Script(phases, false, t + k + 2)
    else Script(phases + Closing(h, t + k + 1), false, t + k + 4)
  }

  function Outcome(h: Host, t: nat, leaf: Leaf, demands: seq<Demand>, k: nat): Script
    requires k <= |demands|
  {
    if k == |demands| then Script(PhasesIn(demands), true, t + k) else Broken(h, t, leaf, demands, k)
  }

  // ----- following a course demand by demand -----

  /** What is left of a run from demand `i` on. */
  function From(h: Host, t: nat, leaf: Leaf, seen: Scope, demands: seq<Demand>, i: nat): Script
    requires i <= |demands|
    decreases |demands| - i
  {
    if i < |demands| && Met(h, t + i, leaf, seen, demands[i]) then From(h, t, leaf, seen, demands, i + 1)
    else Outcome(h, t, leaf, demands, i)
  }

  lemma {:induction false} FromStops(h: Host, t: nat, leaf: Leaf, seen: Scope, demands: seq<Demand>, i: nat, k: nat)
    requires i <= k && MetUpTo(h, t, leaf, seen, demands, k)
    ensures From(h, t, leaf, seen, demands, i) == Outcome(h, t, leaf, demands, k)
    decreases k - i
  {
    hide Met, Outcome;
    if i < k { FromStops(h, t, leaf, seen, demands, i + 1, k); }
  }

  lemma {:induction false} SomewhereItStops(h: Host, t: nat, leaf: Leaf, seen: Scope, demands: seq<Demand>, i: nat)
    returns (k: nat)
    requires i <= |demands| && forall j | 0 <= j < i :: Met(h, t + j, leaf, seen, demands[j])
    ensures MetUpTo(h, t, leaf, seen, demands, k)
    decreases |demands| - i
  {
    hide Met;
    if i < |demands| && Met(h, t + i, leaf, seen, demands[i]) {
      k := SomewhereItStops(h, t, leaf, seen, demands, i + 1);
    } else {
      k := i;
    }
  }

  // ----- the scripts agree with the courses -----

  /** With demand `i` next, these demands are left and these phases are recorded. */
  ghost predicate Ahead(demands: seq<Demand>, i: nat, rest: seq<Demand>, phases: seq<Phase>) {
    i <= |demands| && demands[i..] == rest && PhasesIn(demands[..i]) == phases
  }

  lemma {:induction false} PhasesNext(demands: seq<Demand>, i: nat)
    requires i < |demands|
    ensures PhasesIn(demands[..i + 1])
         == PhasesIn(demands[..i]) + (if demands[i].Records? then [demands[i].phase] else [])
  {
    if i == 0 {
      assert demands[..1][1..] == [];
    } else {
      PhasesNext(demands[1..], i - 1);
      assert demands[..i + 1][1..] == demands[1..][..i] && demands[..i][1..] == demands[1..][..i - 1];
    }
  }

  /** A demand that is met lies behind. */
  lemma Pass(h: Host, t: nat, leaf: Leaf, seen: Scope, demands: seq<Demand>, i: nat, d: Demand, rest: seq<Demand>,
    phases: seq<Phase>)
    requires Ahead(demands, i, [d] + rest, phases)
    ensures Ahead(demands, i + 1, rest, if d.Records? then phases + [d.phase] else phases)
    ensures Met(h, t + i, leaf, seen, d) ==>
      From(h, t, leaf, seen, demands, i) == From(h, t, leaf, seen, demands, i + 1)
  {
    hide Met, Outcome;
    assert demands[i] == demands[i..][0] && demands[i + 1..] == demands[i..][1..];
    PhasesNext(demands, i);
  }

  /** A demand of the body that is not met sends the leaf through its failure exit. */
  lemma Stumble(h: Host, t: nat, leaf: Leaf, seen: Scope, demands: seq<Demand>, i: nat, d: Demand, rest: seq<Demand>,
    phases: seq<Phase>)
    requires Ahead(demands, i, [d] + rest, phases) && i > 2 && rest != []
    requires !Met(h, t + i, leaf, seen, d) && !(leaf.WaitLeaf? && d == Records(Succeeded))
    ensures From(h, t, leaf, seen, demands, i) == CompleteScript(h, FailScript(h, t + i + 1, phases))
  {
    assert demands[i] == demands[i..][0];
    hide Met, PhasesIn;
  }

  lemma EndingAgrees(h: Host, t: nat, leaf: Leaf, seen: Scope, demands: seq<Demand>, i: nat, phases: seq<Phase>)
    requires Ahead(demands, i, ENDING, phases) && i > 2 && !leaf.WaitLeaf?
    ensures From(h, t, leaf, seen, demands, i) == CompleteScript(h, FinishScript(h, t + i, phases))
  {
    hide PhasesIn;
    assert ENDING == [Records(Succeeded)] + [Goes] && [Goes] == [Goes] + [];
    Pass(h, t, leaf, seen, demands, i, Records(Succeeded), [Goes], phases);
    if !h.accepts(t + i) {
      Stumble(h, t, leaf, seen, demands, i, Records(Succeeded), [Goes], phases);
    } else {
      assert |demands| == i + 2 && demands[i + 1] == demands[i..][1];
      Pass(h, t, leaf, seen, demands, i + 1, Goes, [], phases + [Succeeded]);
      assert demands[..i + 2] == demands;
    }
  }

  lemma ApplyAgrees(h: Host, t: nat, leaf: Leaf, seen: Scope, demands: seq<Demand>, i: nat, phases: seq<Phase>)
    requires Ahead(demands, i, [Records(Transitioning), Does] + ENDING, phases) && i > 2 && !leaf.WaitLeaf?
    ensures From(h, t, leaf, seen, demands, i) == CompleteScript(h, ApplyScript(h, t + i, phases, seen))
  {
    hide PhasesIn, From, Ahead, FailScript, FinishScript, CompleteScript;
    assert [Records(Transitioning), Does] + ENDING == [Records(Transitioning)] + ([Does] + ENDING);
    Pass(h, t, leaf, seen, demands, i, Records(Transitioning), [Does] + ENDING, phases);
    if !h.accepts(t + i) {
      Stumble(h, t, leaf, seen, demands, i, Records(Transitioning), [Does] + ENDING, phases);
    } else {
      DoesAgrees(h, t, leaf, seen, demands, i + 1, phases + [Transitioning]);
    }
  }

  /** One last deed, then the end. */
  lemma DoesAgrees(h: Host, t: nat, leaf: Leaf, seen: Scope, demands: seq<Demand>, i: nat, phases: seq<Phase>)
    requires Ahead(demands, i, [Does] + ENDING, phases) && i > 2 && !leaf.WaitLeaf?
    ensures From(h, t, leaf, seen, demands, i)
         == CompleteScript(h, if h.performs(t + i, seen) then FinishScript(h, t + i + 1, phases)
                              else FailScript(h, t + i + 1, phases))
  {
    hide PhasesIn, From, Ahead, FailScript, FinishScript, CompleteScript;
    Pass(h, t, leaf, seen, demands, i, Does, ENDING, phases);
    if !h.performs(t + i, seen) {
      Stumble(h, t, leaf, seen, demands, i, Does, ENDING, phases);
    } else {
      EndingAgrees(h, t, leaf, seen, demands, i + 1, phases);
    }
  }

  lemma HealAgrees(h: Host, t: nat, leaf: Leaf, seen: Scope, demands: seq<Demand>, i: nat)
    requires Ahead(demands, i, [Records(Healing), Goes, Records(Transitioning), Does] + ENDING, [Running])
    requires i > 2 && !leaf.WaitLeaf?
    ensures From(h, t, leaf, seen, demands, i) == CompleteScript(h, HealScript(h, t + i, seen))
  {
    hide PhasesIn, From, Ahead, FailScript, ApplyScript, CompleteScript;
    var apply := [Records(Transitioning), Does] + ENDING;
    assert [Records(Healing), Goes, Records(Transitioning), Does] + ENDING == [Records(Healing)] + ([Goes] + apply);
    Pass(h, t, leaf, seen, demands, i, Records(Healing), [Goes] + apply, [Running]);
    assert [Running] + [Healing] == [Running, Healing];
    if !h.accepts(t + i) {
      Stumble(h, t, leaf, seen, demands, i, Records(Healing), [Goes] + apply, [Running]);
    } else {
      Pass(h, t, leaf, seen, demands, i + 1, Goes, apply, [Running, Healing]);
      if !h.proceeds(t + i + 1) {
        Stumble(h, t, leaf, seen, demands, i + 1, Goes, apply, [Running, Healing]);
      } else {
        ApplyAgrees(h, t, leaf, seen, demands, i + 2, [Running, Healing]);
      }
    }
  }

  lemma LocateAgrees(h: Host, t: nat, leaf: Leaf, seen: Scope, demands: seq<Demand>, i: nat)
    requires leaf.ActionLeaf? && i > 2
    requires Ahead(demands, i, Search(leaf.optional, h.healing, h.locates(t + i)) + ENDING, [Running])
    ensures From(h, t, leaf, seen, demands, i) == CompleteScript(h, LocateScript(h, t + i, leaf.optional, seen))
  {
    hide PhasesIn, From, Ahead, FailScript, FinishScript, ApplyScript, HealScript, CompleteScript;
    var apply := [Records(Transitioning), Does] + ENDING;
    var lookup := h.locates(t + i);
    if lookup.NotFound? && leaf.optional {
      assert Search(leaf.optional, h.healing, lookup) == [Finds(NotFound)];
      Pass(h, t, leaf, seen, demands, i, Finds(NotFound), ENDING, [Running]);
      EndingAgrees(h, t, leaf, seen, demands, i + 1, [Running]);
    } else if lookup.NotFound? && h.healing {
      var heal := [Records(Healing), Goes, Records(Transitioning), Does] + ENDING;
      assert Search(leaf.optional, h.healing, lookup) + ENDING == [Finds(NotFound)] + heal;
      Pass(h, t, leaf, seen, demands, i, Finds(NotFound), heal, [Running]);
      HealAgrees(h, t, leaf, seen, demands, i + 1);
    } else {
      assert Search(leaf.optional, h.healing, lookup) + ENDING == [Finds(Found)] + apply;
      Pass(h, t, leaf, seen, demands, i, Finds(Found), apply, [Running]);
      if lookup.Found? {
        ApplyAgrees(h, t, leaf, seen, demands, i + 1, [Running]);
      } else {
        Stumble(h, t, leaf, seen, demands, i, Finds(Found), apply, [Running]);
      }
    }
  }

  lemma ActionAgrees(h: Host, t: nat, leaf: Leaf, seen: Scope, demands: seq<Demand>)
    requires leaf.ActionLeaf? && demands == CourseAt(h, t, leaf)
    requires Ahead(demands, 3, Texts(leaf) + Middle(leaf, h.healing, h.locates(LookupTick(t, leaf))) + ENDING, [Running])
    ensures From(h, t, leaf, seen, demands, 3)
         == CompleteScript(h, ActionScript(h, t + 3, leaf.action, leaf.optional, seen))
  {
    hide PhasesIn, From, Ahead, FailScript, LocateScript, CompleteScript, Search;
    var rest := Middle(leaf, h.healing, h.locates(LookupTick(t, leaf))) + ENDING;
    assert Texts(leaf) + Middle(leaf, h.healing, h.locates(LookupTick(t, leaf))) + ENDING == Texts(leaf) + rest;
    if Interpolates(leaf.action) {
      Pass(h, t, leaf, seen, demands, 3, Does, rest, [Running]);
      if !h.performs(t + 3, seen) {
        Stumble(h, t, leaf, seen, demands, 3, Does, rest, [Running]);
      } else if LooksUp(leaf) {
        LocateAgrees(h, t, leaf, seen, demands, 4);
      } else {
        DoesAgrees(h, t, leaf, seen, demands, 4, [Running]);
      }
    } else {
      assert Texts(leaf) + rest == rest;
      LocateAgrees(h, t, leaf, seen, demands, 3);
    }
  }

  lemma WaitAgrees(h: Host, t: nat, leaf: Leaf, seen: Scope, demands: seq<Demand>)
    requires leaf.WaitLeaf? && Ahead(demands, 3, [Goes] + ENDING, [Running])
    ensures From(h, t, leaf, seen, demands, 3) == CompleteScript(h, WaitScript(h, t + 3))
  {
    hide PhasesIn, FailScript;
    Pass(h, t, leaf, seen, demands, 3, Goes, ENDING, [Running]);
    assert demands[3] == demands[3..][0] && demands[4] == demands[3..][1] && demands[5] == demands[3..][2];
    if !h.proceeds(t + 3) {
      Stumble(h, t, leaf, seen, demands, 3, Goes, ENDING, [Running]);
    } else {
      assert ENDING == [Records(Succeeded)] + [Goes] && [Goes] == [Goes] + [];
      Pass(h, t, leaf, seen, demands, 4, Records(Succeeded), [Goes], [Running]);
      if h.accepts(t + 4) {
        Pass(h, t, leaf, seen, demands, 5, Goes, [], [Running, Succeeded]);
        assert [Running] + [Succeeded] == [Running, Succeeded] && demands[..6] == demands;
      }
    }
  }

  lemma CheckAgrees(h: Host, t: nat, leaf: Leaf, seen: Scope, demands: seq<Demand>)
    requires !leaf.WaitLeaf? && Ahead(demands, 3, [Records(Validating), Does] + ENDING, [Running])
    ensures From(h, t, leaf, seen, demands, 3) == CompleteScript(h, CheckScript(h, t + 3, seen))
  {
    hide PhasesIn, From, Ahead, FailScript, FinishScript, CompleteScript;
    assert [Records(Validating), Does] + ENDING == [Records(Validating)] + ([Does] + ENDING);
    Pass(h, t, leaf, seen, demands, 3, Records(Validating), [Does] + ENDING, [Running]);
    assert [Running] + [Validating] == [Running, Validating];
    if !h.accepts(t + 3) {
      Stumble(h, t, leaf, seen, demands, 3, Records(Validating), [Does] + ENDING, [Running]);
    } else {
      DoesAgrees(h, t, leaf, seen, demands, 4, [Running, Validating]);
    }
  }

  lemma BodyAgrees(h: Host, t: nat, leaf: Leaf, seen: Scope, demands: seq<Demand>)
    requires demands == CourseAt(h, t, leaf)
    requires Ahead(demands, 3, Texts(leaf) + Middle(leaf, h.healing, h.locates(LookupTick(t, leaf))) + ENDING, [Running])
    ensures From(h, t, leaf, seen, demands, 3) == CompleteScript(h, BodyScript(h, t + 3, leaf, seen))
  {
    hide PhasesIn, From, Ahead, ActionScript, WaitScript, CheckScript, CompleteScript, CourseAt, Search;
    if leaf.ActionLeaf? {
      ActionAgrees(h, t, leaf, seen, demands);
    } else if leaf.WaitLeaf? {
      assert Texts(leaf) + [Goes] + ENDING == [Goes] + ENDING;
      WaitAgrees(h, t, leaf, seen, demands);
    } else {
      assert Texts(leaf) + [Records(Validating), Does] + ENDING == [Records(Validating), Does] + ENDING;
      CheckAgrees(h, t, leaf, seen, demands);
    }
  }

  /** What a leaf can see of its scope: texts of waits, and of actions without any, name no parameters. */
  function Sight(leaf: Leaf, scope: Scope): Scope {
    if leaf.WaitLeaf? || (leaf.ActionLeaf? && Texts(leaf) == []) then map[] else scope
  }

  lemma SightIsReadable(leaf: Leaf, scope: Scope)
    ensures Sight(leaf, scope) == Readable(leaf, scope)
  {
  }

  lemma LeafAgrees(h: Host, t: nat, leaf: Leaf, scope: Scope)
    ensures LeafScript(h, t, leaf, scope) == From(h, t, leaf, Sight(leaf, scope), CourseAt(h, t, leaf), 0)
  {
    var seen, demands := Sight(leaf, scope), CourseAt(h, t, leaf);
    var rest := Texts(leaf) + Middle(leaf, h.healing, h.locates(LookupTick(t, leaf))) + ENDING;
    SightIsReadable(leaf, scope);
    hide PhasesIn, From, BodyScript, CourseAt, Course, Middle, Texts, Sight, Readable, LookupTick, FailScript;
    CourseStarts(h, t, leaf);
    Pass(h, t, leaf, seen, demands, 0, Goes, [Records(Running), Opens] + rest, []);
    assert [Records(Running), Opens] + rest == [Records(Running)] + ([Opens] + rest) && [] + [Running] == [Running];
    Pass(h, t, leaf, seen, demands, 1, Records(Running), [Opens] + rest, []);
    Pass(h, t, leaf, seen, demands, 2, Opens, rest, [Running]);
    if h.proceeds(t) && h.accepts(t + 1) && h.opens(t + 2, leaf) {
      BodyAgrees(h, t, leaf, seen, demands);
    } else {
      StartStumbles(h, t, leaf, seen, demands, rest);
    }
  }

  lemma CourseStarts(h: Host, t: nat, leaf: Leaf)
    ensures var rest := Texts(leaf) + Middle(leaf, h.healing, h.locates(LookupTick(t, leaf))) + ENDING;
            Ahead(CourseAt(h, t, leaf), 0, [Goes] + ([Records(Running), Opens] + rest), [])
  {
    var rest := Texts(leaf) + Middle(leaf, h.healing, h.locates(LookupTick(t, leaf))) + ENDING;
    assert BEGINNING + rest == [Goes] + ([Records(Running), Opens] + rest);
    assert BEGINNING + rest == CourseAt(h, t, leaf);
  }

  lemma StartStumbles(h: Host, t: nat, leaf: Leaf, seen: Scope, demands: seq<Demand>, rest: seq<Demand>)
    requires Ahead(demands, 0, [Goes] + ([Records(Running), Opens] + rest), []) && |rest| > 1
    requires !h.proceeds(t) || !h.accepts(t + 1) || !h.opens(t + 2, leaf)
    ensures From(h, t, leaf, seen, demands, 0)
         == if !h.proceeds(t) then Script([], false, t + 1)
            else if !h.accepts(t + 1) then Script([], false, t + 2)
            else FailScript(h, t + 3, [Running])
  {
    assert demands == [Goes] + ([Records(Running), Opens] + rest);
    assert demands[..1] == [Goes] && demands[..2] == [Goes, Records(Running)];
    assert PhasesIn([Goes]) == [] && [Goes, Records(Running)][1..] == [Records(Running)];
    assert PhasesIn([Goes, Records(Running)]) == [Running];
    assert demands[0] == Goes && demands[1] == Records(Running) && demands[2] == Opens;
    hide PhasesIn;
    FromStops(h, t, leaf, seen, demands, 0, if !h.proceeds(t) then 0 else if !h.accepts(t + 1) then 1 else 2);
  }

  // ----- what every leaf run comes to -----

  /** A leaf that meets its first `k` demands and not the next ends just as the list says. */
  lemma LeafRunsItsCourse(h: Host, s: State, scope: Scope, id: string, leaf: Leaf, k: nat)
    requires MetUpTo(h, s.clock, leaf, Sight(leaf, scope), CourseAt(h, s.clock, leaf), k)
    ensures var (end, ok) := ExecLeaf(h, s, scope, id, leaf);
            var course := CourseAt(h, s.clock, leaf);
            var outcome := Outcome(h, s.clock, leaf, course, k);
            && (ok <==> k == |course|)
            && end.clock == outcome.clock
            && end.log == s.log + EventsOf(id, Begun(s, id) + 1, outcome.phases)
            && end.visits == (if k < 2 then s.visits else s.visits + [Visit(id, scope)])
  {
    hide *;
    var t, seen, course := s.clock, Sight(leaf, scope), CourseAt(h, s.clock, leaf);
    LeafAgrees(h, t, leaf, scope);
    FromStops(h, t, leaf, seen, course, 0, k);
    OutcomeShape(h, t, leaf, seen, k);
    ScriptLeaves(h, s, scope, id, leaf);
  }

  /** What a leaf run leaves behind, by the phases of its script. */
  lemma ScriptLeaves(h: Host, s: State, scope: Scope, id: string, leaf: Leaf)
    ensures var (end, ok) := ExecLeaf(h, s, scope, id, leaf);
            var script := LeafScript(h, s.clock, leaf, scope);
            && ok == script.ok && end.clock == script.clock
            && end.log == s.log + EventsOf(id, Begun(s, id) + 1, script.phases)
            && end.visits == (if script.phases == [] then s.visits else s.visits + [Visit(id, scope)])
  {
    LeafIsLegal(h, s.clock, leaf, scope);
    hide LeafScript, Legal;
    var script := LeafScript(h, s.clock, leaf, scope);
    if script.phases == [] { assert s.log + EventsOf(id, Begun(s, id) + 1, script.phases) == s.log; }
  }

  lemma OutcomeShape(h: Host, t: nat, leaf: Leaf, seen: Scope, k: nat)
    requires MetUpTo(h, t, leaf, seen, CourseAt(h, t, leaf), k)
    ensures k <= |CourseAt(h, t, leaf)|
    ensures var outcome := Outcome(h, t, leaf, CourseAt(h, t, leaf), k);
            (outcome.ok <==> k == |CourseAt(h, t, leaf)|) && (outcome.phases == [] <==> k < 2)
  {
    var course := CourseAt(h, t, leaf);
    assert course[0] == Goes && course[1] == Records(Running) && |course| > 4;
    RunningFirst(course, k);
    assert course[..|course|] == course;
    hide PhasesIn, CourseAt, Met;
  }

  /** SUCCEEDED is the last phase a course can record. */
  lemma SuccessIsLast(h: Host, t: nat, leaf: Leaf, k: nat)
    requires |CourseAt(h, t, leaf)| - 1 <= k <= |CourseAt(h, t, leaf)|
    ensures var phases := PhasesIn(CourseAt(h, t, leaf)[..k]);
            phases != [] && phases[|phases| - 1] == Succeeded
  {
    var course, n := CourseAt(h, t, leaf), |CourseAt(h, t, leaf)|;
    CourseEnds(h, t, leaf);
    assert course[n - 2] == course[n - 2..][0] && course[n - 1] == course[n - 2..][1];
    PhasesNext(course, n - 2);
    PhasesNext(course, n - 1);
    hide CourseAt, PhasesIn, Skips;
  }

  lemma RunningFirst(demands: seq<Demand>, k: nat)
    requires |demands| > 2 && k <= |demands| && demands[0] == Goes && demands[1] == Records(Running)
    ensures PhasesIn(demands[..k]) == [] <==> k < 2
  {
    if k >= 2 {
      assert demands[..k][1..][0] == Records(Running) && PhasesIn(demands[..k]) == PhasesIn(demands[..k][1..]);
    } else if k == 1 {
      assert demands[..1][1..] == [];
    }
  }

  lemma {:induction false} PhasesHold(demands: seq<Demand>, phase: Phase)
    ensures phase in PhasesIn(demands) <==> exists i :: 0 <= i < |demands| && demands[i] == Records(phase)
  {
    if demands != [] {
      PhasesHold(demands[1..], phase);
      assert demands == [demands[0]] + demands[1..];
      if exists i :: 0 <= i < |demands| && demands[i] == Records(phase) {
        var i :| 0 <= i < |demands| && demands[i] == Records(phase);
        if i > 0 { assert demands[1..][i - 1] == Records(phase); }
      }
    }
  }

  /** Every demand of the leaf is met. */
  predicate AllMet(h: Host, t: nat, leaf: Leaf, seen: Scope) {
    var course := CourseAt(h, t, leaf);
    forall i | 0 <= i < |course| :: Met(h, t + i, leaf, seen, course[i])
  }

  /** A leaf succeeds exactly when every one of its demands is met. */
  lemma SucceedsExactly(h: Host, s: State, scope: Scope, id: string, leaf: Leaf)
    ensures ExecLeaf(h, s, scope, id, leaf).1 <==> AllMet(h, s.clock, leaf, Sight(leaf, scope))
  {
    var k := SomewhereItStops(h, s.clock, leaf, Sight(leaf, scope), CourseAt(h, s.clock, leaf), 0);
    LeafRunsItsCourse(h, s, scope, id, leaf, k);
    hide Met, CourseAt, Outcome, ExecLeaf, Sight;
  }

  /** Whether an optional element is missing, so that there is nothing to do. */
  predicate Skips(h: Host, t: nat, leaf: Leaf) {
    LooksUp(leaf) && leaf.optional && h.locates(LookupTick(t, leaf)).NotFound?
  }

  /** Where the last three demands of a course lie, and what they are. */
  lemma CourseEnds(h: Host, t: nat, leaf: Leaf)
    ensures var course := CourseAt(h, t, leaf);
            && |course| >= 6 && course[|course| - 2..] == ENDING
            && (!leaf.WaitLeaf? && !Skips(h, t, leaf) ==> course[|course| - 3] == Does)
            && (forall i | 0 <= i < |course| - 2 :: course[i] != Records(Succeeded))
            && (forall i | 0 <= i < |course| :: course[i] != Records(Failed) && course[i] != Records(Canceled))
            && (course[..3] == BEGINNING)
  {
  }

  /** The phases a leaf run records. */
  function PhasesOf(h: Host, s: State, scope: Scope, id: string, leaf: Leaf): seq<Phase> {
    var end := ExecLeaf(h, s, scope, id, leaf).0;
    if |end.log| < |s.log| then [] else
    seq(|end.log| - |s.log|, i requires 0 <= i < |end.log| - |s.log| => end.log[|s.log| + i].phase)
  }

  lemma PhasesAre(h: Host, s: State, scope: Scope, id: string, leaf: Leaf) returns (k: nat)
    ensures k <= |CourseAt(h, s.clock, leaf)|
    ensures MetUpTo(h, s.clock, leaf, Sight(leaf, scope), CourseAt(h, s.clock, leaf), k)
    ensures PhasesOf(h, s, scope, id, leaf) == Outcome(h, s.clock, leaf, CourseAt(h, s.clock, leaf), k).phases
    ensures ExecLeaf(h, s, scope, id, leaf).1 <==> k == |CourseAt(h, s.clock, leaf)|
    ensures ExecLeaf(h, s, scope, id, leaf).0.clock == Outcome(h, s.clock, leaf, CourseAt(h, s.clock, leaf), k).clock
  {
    k := SomewhereItStops(h, s.clock, leaf, Sight(leaf, scope), CourseAt(h, s.clock, leaf), 0);
    LeafRunsItsCourse(h, s, scope, id, leaf, k);
    hide CourseAt, Outcome, ExecLeaf, Sight;
  }

  /** A phase other than FAILED and CANCELED is recorded exactly when its demand was come to and met. */
  lemma PhaseIsMet(h: Host, s: State, scope: Scope, id: string, leaf: Leaf, phase: Phase, k: nat)
    requires MetUpTo(h, s.clock, leaf, Sight(leaf, scope), CourseAt(h, s.clock, leaf), k)
    requires PhasesOf(h, s, scope, id, leaf) == Outcome(h, s.clock, leaf, CourseAt(h, s.clock, leaf), k).phases
    requires !phase.Failed? && !phase.Canceled?
    ensures phase in PhasesOf(h, s, scope, id, leaf)
       <==> exists i :: 0 <= i < k && CourseAt(h, s.clock, leaf)[i] == Records(phase)
  {
    var course := CourseAt(h, s.clock, leaf);
    PhasesHold(course[..k], phase);
    assert course[..|course|] == course;
    assert forall i | 0 <= i < k :: course[..k][i] == course[i];
    hide MetUpTo, CourseAt, ExecLeaf, Sight, PhasesIn, PhasesOf;
  }

  /** When a leaf has recorded SUCCEEDED, only the end of its lifecycle is left. */
  lemma AfterSuccess(h: Host, t: nat, leaf: Leaf, seen: Scope, k: nat)
    requires MetUpTo(h, t, leaf, seen, CourseAt(h, t, leaf), k) && k >= |CourseAt(h, t, leaf)| - 1
    ensures var end := Outcome(h, t, leaf, CourseAt(h, t, leaf), k).clock;
            && end == t + |CourseAt(h, t, leaf)| && end >= t + 6 && h.accepts(end - 2)
            && (!leaf.WaitLeaf? && !Skips(h, t, leaf) ==> h.performs(end - 3, seen))
            && (k == |CourseAt(h, t, leaf)| <==> h.proceeds(end - 1))
  {
    var course, n := CourseAt(h, t, leaf), |CourseAt(h, t, leaf)|;
    CourseEnds(h, t, leaf);
    hide CourseAt, Skips, PhasesIn;
    assert course[n - 2] == course[n - 2..][0] && course[n - 1] == course[n - 2..][1];
    assert Met(h, t + (n - 3), leaf, seen, course[n - 3]);
    assert Met(h, t + (n - 2), leaf, seen, course[n - 2]);
    assert k == n <==> Met(h, t + (n - 1), leaf, seen, course[n - 1]);
  }

  /**
   Nothing succeeds without being done: the last thing before SUCCEEDED is recorded
   is an expansion, action or check that succeeded, save for waits and for optional
   elements that are missing.
   */
  lemma SuccessIsDone(h: Host, s: State, scope: Scope, id: string, leaf: Leaf)
    requires ExecLeaf(h, s, scope, id, leaf).1
    ensures var end := ExecLeaf(h, s, scope, id, leaf).0.clock;
            && end >= s.clock + 6
            && h.accepts(end - 2) && h.proceeds(end - 1)
            && (!leaf.WaitLeaf? && !Skips(h, s.clock, leaf) ==> h.performs(end - 3, Sight(leaf, scope)))
  {
    hide *;
    var k := PhasesAre(h, s, scope, id, leaf);
    AfterSuccess(h, s.clock, leaf, Sight(leaf, scope), k);
  }

  /** SUCCEEDED stands in the log only after what the leaf was for had been done. */
  lemma RecordedSuccessIsDone(h: Host, s: State, scope: Scope, id: string, leaf: Leaf)
    requires Succeeded in PhasesOf(h, s, scope, id, leaf)
    ensures var end := ExecLeaf(h, s, scope, id, leaf).0.clock;
            && end >= s.clock + 6
            && h.accepts(end - 2)
            && (!leaf.WaitLeaf? && !Skips(h, s.clock, leaf) ==> h.performs(end - 3, Sight(leaf, scope)))
            && (ExecLeaf(h, s, scope, id, leaf).1 <==> h.proceeds(end - 1))
  {
    hide *;
    var k := PhasesAre(h, s, scope, id, leaf);
    PhaseIsMet(h, s, scope, id, leaf, Succeeded, k);
    CourseEnds(h, s.clock, leaf);
    AfterSuccess(h, s.clock, leaf, Sight(leaf, scope), k);
  }

  /** The leaf comes as far as looking its element up. */
  predicate ReachesLookup(h: Host, t: nat, leaf: Leaf, seen: Scope) {
    && LooksUp(leaf) && h.proceeds(t) && h.accepts(t + 1) && h.opens(t + 2, leaf)
    && (Texts(leaf) != [] ==> h.performs(t + 3, seen))
  }

  /**
   Healing is recorded exactly for a mandatory element that was looked up and not
   found, when a healer is configured and the sink takes the event.
   */
  lemma HealsExactly(h: Host, s: State, scope: Scope, id: string, leaf: Leaf)
    ensures Healing in PhasesOf(h, s, scope, id, leaf)
       <==> (ReachesLookup(h, s.clock, leaf, Sight(leaf, scope)) && Heals(h, s.clock, leaf)
              && h.accepts(LookupTick(s.clock, leaf) + 1))
  {
    hide *;
    var k := PhasesAre(h, s, scope, id, leaf);
    PhaseIsMet(h, s, scope, id, leaf, Healing, k);
    HealingLies(h, s.clock, leaf);
    var n := LookupTick(s.clock, leaf) - s.clock;
    if Heals(h, s.clock, leaf) {
      HealingIsMet(h, s.clock, leaf, Sight(leaf, scope), k);
      if k > n + 1 { assert CourseAt(h, s.clock, leaf)[n + 1] == Records(Healing); }
    }
  }

  /** The element is mandatory, was not found, and there is a healer. */
  predicate Heals(h: Host, t: nat, leaf: Leaf) {
    LooksUp(leaf) && h.locates(LookupTick(t, leaf)).NotFound? && !leaf.optional && h.healing
  }

  /** HEALING stands in a course right behind the lookup, if it stands there at all. */
  lemma HealingLies(h: Host, t: nat, leaf: Leaf)
    ensures var course, n := CourseAt(h, t, leaf), LookupTick(t, leaf) - t;
            && n >= 0
            && (Heals(h, t, leaf) ==> |course| > n + 1)
            && forall i | 0 <= i < |course| :: course[i] == Records(Healing) <==> Heals(h, t, leaf) && i == n + 1
  {
  }

  lemma HealingIsMet(h: Host, t: nat, leaf: Leaf, seen: Scope, k: nat)
    requires Heals(h, t, leaf) && MetUpTo(h, t, leaf, seen, CourseAt(h, t, leaf), k)
    ensures k > LookupTick(t, leaf) - t + 1 <==> ReachesLookup(h, t, leaf, seen) && h.accepts(LookupTick(t, leaf) + 1)
  {
    var course, n := CourseAt(h, t, leaf), LookupTick(t, leaf) - t;
    assert course == BEGINNING + Texts(leaf)
      + [Finds(NotFound), Records(Healing), Goes, Records(Transitioning), Does] + ENDING;
    assert course[0] == Goes && course[1] == Records(Running) && course[2] == Opens;
    assert course[n] == Finds(NotFound) && course[n + 1] == Records(Healing);
    assert n == 4 ==> course[3] == Does;
    hide CourseAt, Course;
    forall i | 0 <= i < n + 2
      ensures i < k ==> Met(h, t + i, leaf, seen, course[i])
      ensures i == k ==> !Met(h, t + i, leaf, seen, course[i])
    {
    }
  }

  /** When every answer is favourable the leaf succeeds. */
  lemma FavourableSucceeds(h: Host, s: State, scope: Scope, id: string, leaf: Leaf)
    requires forall n: nat :: h.proceeds(n) && h.accepts(n) && h.opens(n, leaf) && h.performs(n, Sight(leaf, scope))
    requires LooksUp(leaf) ==> h.locates(LookupTick(s.clock, leaf)).Found?
    ensures ExecLeaf(h, s, scope, id, leaf).1
  {
    SucceedsExactly(h, s, scope, id, leaf);
    hide ExecLeaf, Sight;
  }

  /** A lookup that breaks, or finds nothing where something must be and cannot be healed, fails the leaf. */
  lemma LostIsFailed(h: Host, s: State, scope: Scope, id: string, leaf: Leaf)
    requires LooksUp(leaf)
    requires var lookup := h.locates(LookupTick(s.clock, leaf)); lookup.Broken? || (lookup.NotFound? && !leaf.optional && !h.healing)
    ensures !ExecLeaf(h, s, scope, id, leaf).1
  {
    SucceedsExactly(h, s, scope, id, leaf);
    var course, n := CourseAt(h, s.clock, leaf), LookupTick(s.clock, leaf) - s.clock;
    assert course[n] == Finds(Found) && !Met(h, s.clock + n, leaf, Sight(leaf, scope), course[n]);
    hide ExecLeaf, Sight, CourseAt;
  }

  lemma CoursesDoNotFail(h: Host, t: nat, leaf: Leaf, k: nat)
    requires k <= |CourseAt(h, t, leaf)|
    ensures Canceled !in PhasesIn(CourseAt(h, t, leaf)[..k]) && Failed !in PhasesIn(CourseAt(h, t, leaf)[..k])
    ensures PhasesIn(CourseAt(h, t, leaf)[..k]) == [] <==> k < 2
    ensures |CourseAt(h, t, leaf)| >= 6
  {
    var course := CourseAt(h, t, leaf);
    CourseEnds(h, t, leaf);
    PhasesHold(course[..k], Canceled);
    PhasesHold(course[..k], Failed);
    assert course[0] == course[..3][0] && course[1] == course[..3][1];
    assert forall i | 0 <= i < k :: course[..k][i] == course[i];
    hide CourseAt, PhasesIn, Skips;
    RunningFirst(course, k);
  }

  /** The one failure phase an outcome can have is the one the cancellation asks for. */
  lemma OutcomeReports(h: Host, t: nat, leaf: Leaf, k: nat)
    requires k <= |CourseAt(h, t, leaf)|
    ensures var phases := Outcome(h, t, leaf, CourseAt(h, t, leaf), k).phases;
            && (Canceled in phases ==> h.canceled(t + k + 1))
            && (Failed in phases ==> !h.canceled(t + k + 1))
  {
    var course := CourseAt(h, t, leaf);
    CoursesDoNotFail(h, t, leaf, k);
    assert course[..|course|] == course;
    hide CourseAt, PhasesIn;
  }

  lemma OutcomeEnds(h: Host, t: nat, leaf: Leaf, seen: Scope, k: nat)
    requires MetUpTo(h, t, leaf, seen, CourseAt(h, t, leaf), k) && k >= 2 && forall n: nat :: h.accepts(n)
    ensures var phases := Outcome(h, t, leaf, CourseAt(h, t, leaf), k).phases;
            phases != [] && phases[|phases| - 1].Terminal()
  {
    var course := CourseAt(h, t, leaf);
    CoursesDoNotFail(h, t, leaf, k);
    assert course[..|course|] == course;
    if k >= |course| - 1 { SuccessIsLast(h, t, leaf, k); }
    hide CourseAt, PhasesIn;
  }

  /** The failure phase recorded is the one the cancellation asks for, and a sink that takes everything gets one. */
  lemma FailureIsReported(h: Host, s: State, scope: Scope, id: string, leaf: Leaf)
    ensures Canceled in PhasesOf(h, s, scope, id, leaf) ==> exists tick: nat :: tick >= s.clock && h.canceled(tick)
    ensures Failed in PhasesOf(h, s, scope, id, leaf) ==> exists tick: nat :: tick >= s.clock && !h.canceled(tick)
    ensures PhasesOf(h, s, scope, id, leaf) != [] && (forall n: nat :: h.accepts(n)) ==>
      PhasesOf(h, s, scope, id, leaf)[|PhasesOf(h, s, scope, id, leaf)| - 1].Terminal()
  {
    var k := PhasesAre(h, s, scope, id, leaf);
    CoursesDoNotFail(h, s.clock, leaf, k);
    OutcomeReports(h, s.clock, leaf, k);
    if k >= 2 && forall n: nat :: h.accepts(n) { OutcomeEnds(h, s.clock, leaf, Sight(leaf, scope), k); }
    hide CourseAt, PhasesOf, ExecLeaf, Sight, PhasesIn, Met, MetUpTo, Course;
  }
}

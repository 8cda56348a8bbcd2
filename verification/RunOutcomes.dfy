/**
 What the event log of a run says about its success: a run that succeeds brings
 every occurrence it begins to SUCCEEDED, and from the first failure on nothing
 but failures is recorded.
 */
module RunOutcomes {
  import opened Wrappers
  import opened Parameters
  import opened Phases
  import opened Execution
  import opened LeafCourses

  predicate Fails(e: Event) {
    e.phase.Failed? || e.phase.Canceled?
  }

  /** Event `i`, if it opens an occurrence, is followed by the success of that occurrence. */
  ghost predicate Resolved(log: seq<Event>, i: nat)
    requires i < |log|
  {
    log[i].phase.Running? ==> exists j :: i < j < |log| && log[j] == Event(log[i].node, log[i].occurrence, Succeeded)
  }

  /** The events from `start` on: failures only at the end, and none when the run succeeded. */
  ghost predicate Telling(log: seq<Event>, start: nat, ok: bool) {
    && start <= |log|
    && (forall i, j | start <= i < j < |log| && Fails(log[i]) :: Fails(log[j]))
    && (ok ==> forall i | start <= i < |log| :: !Fails(log[i]) && Resolved(log, i))
  }

  /** One part of a run after another, the first of which succeeded. */
  lemma TellingThen(first: seq<Event>, log: seq<Event>, start: nat, ok: bool)
    requires Telling(first, start, true) && first <= log && Telling(log, |first|, ok)
    ensures Telling(log, start, ok)
  {
    forall i | start <= i < |first|
      ensures log[i] == first[i] && !Fails(log[i]) && Resolved(log, i)
    {
      assert Resolved(first, i);
      if first[i].phase.Running? {
        var j :| i < j < |first| && first[j] == Event(first[i].node, first[i].occurrence, Succeeded);
        assert log[j] == first[j];
      }
    }
  }

  /** A part of a run that is enclosed by the start of a container and its end. */
  lemma TellingInside(before: seq<Event>, log: seq<Event>, end: seq<Event>, id: string, o: nat, ok: bool)
    requires before + [Event(id, o, Running)] <= log && Telling(log, |before| + 1, ok)
    requires log <= end <= log + [end[|end| - 1]] && |end| > 0
    requires |end| > |log| ==> end[|end| - 1].phase.Succeeded? == ok && (ok || Fails(end[|end| - 1]))
    ensures Telling(end, |before|, false)
    ensures ok && |end| > |log| && end[|end| - 1] == Event(id, o, Succeeded) ==> Telling(end, |before|, true)
  {
    assert log[|before|] == Event(id, o, Running);
    assert forall i | 0 <= i < |log| :: end[i] == log[i];
    if ok && |end| > |log| && end[|end| - 1] == Event(id, o, Succeeded) {
      forall i | |before| <= i < |end|
        ensures Resolved(end, i)
      {
        if i == |before| {
          assert end[|end| - 1] == Event(end[i].node, end[i].occurrence, Succeeded);
        } else if i < |log| {
          assert Resolved(log, i);
          if log[i].phase.Running? {
            var j :| i < j < |log| && log[j] == Event(log[i].node, log[i].occurrence, Succeeded);
            assert end[j] == log[j];
          }
        }
      }
    }
  }

  /** The log of `after` continues that of `before`, and its new events tell how the run went. */
  ghost predicate Tells(before: State, after: State, ok: bool) {
    before.log <= after.log && Telling(after.log, |before.log|, ok)
  }

  /** The run of a node that succeeds ends with the success of the node itself. */
  ghost predicate EndsWell(before: State, after: State, id: string, ok: bool) {
    ok ==> |after.log| > |before.log| && after.log[|after.log| - 1] == Event(id, Begun(before, id) + 1, Succeeded)
  }

  lemma LeafTells(h: Host, s: State, scope: Scope, id: string, leaf: Leaf)
    ensures Tells(s, ExecLeaf(h, s, scope, id, leaf).0, ExecLeaf(h, s, scope, id, leaf).1)
    ensures EndsWell(s, ExecLeaf(h, s, scope, id, leaf).0, id, ExecLeaf(h, s, scope, id, leaf).1)
  {
    var course := CourseAt(h, s.clock, leaf);
    var k := SomewhereItStops(h, s.clock, leaf, Sight(leaf, scope), course, 0);
    LeafRunsItsCourse(h, s, scope, id, leaf, k);
    OutcomeTells(h, s.clock, leaf, k);
    var phases, o := Outcome(h, s.clock, leaf, course, k).phases, Begun(s, id) + 1;
    hide *;
    assert forall i | 0 <= i < |phases| :: EventsOf(id, o, phases)[i] == Event(id, o, phases[i]);
    PhasesTell(s, ExecLeaf(h, s, scope, id, leaf).0, id, phases, ExecLeaf(h, s, scope, id, leaf).1);
  }

  /** A history fails at its end at most, and that of a leaf that succeeded ends with SUCCEEDED. */
  lemma OutcomeTells(h: Host, t: nat, leaf: Leaf, k: nat)
    requires k <= |CourseAt(h, t, leaf)|
    ensures var phases := Outcome(h, t, leaf, CourseAt(h, t, leaf), k).phases;
            && (forall i | 0 <= i < |phases| - 1 :: !phases[i].Failed? && !phases[i].Canceled?)
            && (k == |CourseAt(h, t, leaf)| ==> phases != [] && phases[|phases| - 1] == Succeeded)
  {
    var course := CourseAt(h, t, leaf);
    CoursesDoNotFail(h, t, leaf, k);
    assert course[..|course|] == course;
    if k == |course| { SuccessIsLast(h, t, leaf, k); }
    hide CourseAt, PhasesIn;
  }

  lemma PhasesTell(before: State, after: State, id: string, phases: seq<Phase>, ok: bool)
    requires after.log == before.log + EventsOf(id, Begun(before, id) + 1, phases)
    requires forall i | 0 <= i < |phases| - 1 :: !phases[i].Failed? && !phases[i].Canceled?
    requires ok ==> phases != [] && phases[|phases| - 1] == Succeeded
    ensures Tells(before, after, ok) && EndsWell(before, after, id, ok)
  {
    var n, o, log := |before.log|, Begun(before, id) + 1, after.log;
    forall i | n <= i < |log|
      ensures log[i] == Event(id, o, phases[i - n])
    {
      assert log[i] == EventsOf(id, o, phases)[i - n];
    }
    hide Begun;
    if ok {
      forall i | n <= i < |log|
        ensures Resolved(log, i)
      {
        assert log[|log| - 1] == Event(id, o, Succeeded);
      }
    }
  }

  // ----- whole runs -----

  lemma NothingTells(s: State, ok: bool)
    ensures Tells(s, s, ok)
  {
  }

  lemma TellsThen(s: State, s1: State, s2: State, ok: bool)
    requires Tells(s, s1, true) && Tells(s1, s2, ok)
    ensures Tells(s, s2, ok)
  {
    TellingThen(s1.log, s2.log, |s.log|, ok);
    hide Telling;
  }

  /** A container: what is begun before its content runs and ended after it. */
  lemma ContainerTells(h: Host, s: State, scope: Scope, id: string, s2: State, ok: bool)
    requires Begin(h, s, scope, id).1 && Tells(Begin(h, s, scope, id).0, s2, ok)
    ensures var (end, done) := End(h, s2, id, Begun(s, id) + 1, ok);
            Tells(s, end, done) && EndsWell(s, end, id, done)
  {
    var o := Begun(s, id) + 1;
    var end := End(h, s2, id, o, ok).0;
    assert Begin(h, s, scope, id).0.log == s.log + [Event(id, o, Running)];
    hide Begun;
    assert |end.log| > 0 && s2.log <= end.log <= s2.log + [end.log[|end.log| - 1]];
    TellingInside(s.log, s2.log, end.log, id, o, ok);
    hide Telling;
  }

  lemma UnbegunTells(h: Host, s: State, scope: Scope, id: string)
    requires !Begin(h, s, scope, id).1
    ensures Tells(s, Begin(h, s, scope, id).0, false)
  {
  }

  /**
   Whatever the host does: a run that succeeds brings every occurrence it begins to
   SUCCEEDED, its own last; after the first failure only failures are recorded.
   */
  lemma {:induction false} RunTells(h: Host, s: State, scope: Scope, node: Node)
    ensures var (end, ok) := Exec(h, s, scope, node);
            Tells(s, end, ok) && EndsWell(s, end, node.id, ok)
    decreases node, 0, 0
  {
    hide Tells, Begin, End, Begun, ExecLeaf, EndsWell, BindingsHold, CallScope;
    match node {
      case LeafNode(id, leaf) => LeafTells(h, s, scope, id, leaf);
      case RepeatNode(id, times, children) =>
        NothingTells(s, false);
        NothingEndsWell(s, s, id);
        if times >= 0 {
          var (s1, begun) := Begin(h, s, scope, id);
          NothingEndsWell(s, s1, id);
          if begun {
            TimesTell(h, s1, scope, children, times);
            var (s2, ok) := ExecTimes(h, s1, scope, children, times);
            ContainerTells(h, s, scope, id, s2, ok);
          } else {
            UnbegunTells(h, s, scope, id);
          }
        }
      case WorkflowNode(id, steps, owned) =>
        var inner := if owned.Some? then owned.value else scope;
        var (s1, begun) := Begin(h, s, inner, id);
        NothingEndsWell(s, s1, id);
        if begun {
          AllTell(h, s1, inner, steps);
          var (s2, ok) := ExecAll(h, s1, inner, steps);
          ContainerTells(h, s, inner, id, s2, ok);
        } else {
          UnbegunTells(h, s, inner, id);
        }
      case CallNode(id, target, values, constraints) =>
        var (s1, begun) := Begin(h, s, scope, id);
        NothingEndsWell(s, s1, id);
        if begun {
          NothingTells(s1, false);
          RunTells(h, s1, CallScope(values, scope), target);
          var (s2, ok) :=
            if BindingsHold(values, constraints) then Exec(h, s1, CallScope(values, scope), target)
            else (s1, false);
          ContainerTells(h, s, scope, id, s2, ok);
        } else {
          UnbegunTells(h, s, scope, id);
        }
    }
  }

  lemma NothingEndsWell(before: State, after: State, id: string)
    ensures EndsWell(before, after, id, false)
  {
  }

  lemma {:induction false} AllTell(h: Host, s: State, scope: Scope, nodes: seq<Node>)
    ensures Tells(s, ExecAll(h, s, scope, nodes).0, ExecAll(h, s, scope, nodes).1)
    decreases nodes, 0, 0
  {
    hide Tells, Exec, EndsWell;
    if nodes == [] {
      NothingTells(s, true);
    } else {
      RunTells(h, s, scope, nodes[0]);
      var (s1, ok) := Exec(h, s, scope, nodes[0]);
      if ok {
        AllTell(h, s1, scope, nodes[1..]);
        TellsThen(s, s1, ExecAll(h, s1, scope, nodes[1..]).0, ExecAll(h, s1, scope, nodes[1..]).1);
      }
    }
  }

  lemma {:induction false} TimesTell(h: Host, s: State, scope: Scope, nodes: seq<Node>, n: nat)
    ensures Tells(s, ExecTimes(h, s, scope, nodes, n).0, ExecTimes(h, s, scope, nodes, n).1)
    decreases nodes, 1, n
  {
    hide Tells, ExecAll;
    if n == 0 {
      NothingTells(s, true);
    } else {
      AllTell(h, s, scope, nodes);
      var (s1, ok) := ExecAll(h, s, scope, nodes);
      if ok {
        TimesTell(h, s1, scope, nodes, n - 1);
        TellsThen(s, s1, ExecTimes(h, s1, scope, nodes, n - 1).0, ExecTimes(h, s1, scope, nodes, n - 1).1);
      }
    }
  }

  // ----- calls -----

  /** A value without a schema, a schema without a value, or a value of another type or with an option that is not listed. */
  predicate Unfit(values: Scope, constraints: map<string, Constraint>, n: string) {
    || (n in values && n !in constraints) || (n !in values && n in constraints)
    || (n in values && n in constraints
          && (values[n].Type() != constraints[n].typ
                || (values[n].SingleSelectValue? && values[n].choice !in constraints[n].options)
                || (values[n].MultiSelectValue? && exists i :: 0 <= i < |values[n].choices| && values[n].choices[i] !in constraints[n].options)))
  }

  /** A call with an unfit value fails before anything of its target begins. */
  lemma UnfitCallFails(h: Host, s: State, scope: Scope, id: string, target: Node, values: Scope,
    constraints: map<string, Constraint>, n: string)
    requires Unfit(values, constraints, n)
    ensures var (end, ok) := Exec(h, s, scope, CallNode(id, target, values, constraints));
            !ok && end.visits == Begin(h, s, scope, id).0.visits
  {
    assert n in values.Keys <==> n in values;
    assert n in constraints.Keys <==> n in constraints;
    assert !BindingsHold(values, constraints);
    hide BindingsHold, Begin;
  }
}

/**
 When a program departs from its plan (domain/node/composite.go): a caller
 parameter that is named like an environment variable may leak into a call. The
 visible parameters are the plan's exactly when nothing leaks, and the course is
 the plan's exactly when nothing leaks into a workflow that reads parameters. Two
 kinds of host suffice to see it: one under which everything succeeds, and one
 that refuses a single scope at a single tick.
 */
module Leaks {
  import opened Wrappers
  import opened Parameters
  import opened Plan
  import opened Phases
  import opened Execution
  import opened Indexes
  import opened Snapshots
  import opened Trees
  import opened Sealing
  import opened Compilation
  import opened Meaning
  import opened Pipeline
  import Ancestry
  import CallChecks
  import Codec

  // ----- agreeable hosts -----

  /** A host that refuses nothing but, at some ticks, what is done with some parameters. */
  ghost predicate Agreeable(h: Host) {
    && (forall t: nat :: h.accepts(t) && h.proceeds(t) && h.locates(t).Found? && h.performs(t, map[]))
    && (forall t: nat, leaf: Leaf :: h.opens(t, leaf))
  }

  const PERFECT: Host := Host(false, (t: nat) => true, (t: nat, leaf: Leaf) => true, (t: nat) => true,
    (t: nat, seen: Scope) => true, (t: nat) => Found, (t: nat) => false)

  /** Perfect, except that at tick `at` nothing can be done with the parameters `refused`. */
  function Refusing(at: nat, refused: Scope): Host {
    PERFECT.(performs := (t: nat, seen: Scope) => t != at || seen != refused)
  }

  ghost predicate Refuses(h: Host, scope: Scope) {
    exists t: nat :: !h.performs(t, scope)
  }

  lemma PerfectIsAgreeable()
    ensures Agreeable(PERFECT)
  {
  }

  lemma RefusingIsAgreeable(at: nat, refused: Scope)
    requires refused != map[]
    ensures Agreeable(Refusing(at, refused))
    ensures forall scope :: Refuses(Refusing(at, refused), scope) ==> scope == refused
  {
  }

  /** Under an agreeable host a leaf always begins, and fails only over the parameters it reads. */
  lemma AgreeableLeaf(h: Host, t: nat, leaf: Leaf, scope: Scope)
    requires Agreeable(h)
    ensures LeafScript(h, t, leaf, scope).phases != []
    ensures LeafScript(h, t, leaf, scope).ok || Refuses(h, scope)
  {
  }

  // ----- the plan shows every step the frozen values of its call site -----

  predicate Sees(visit: PlanVisit, scopes: map<string, Scope>, env: Scope) {
    visit.at.callPath in scopes && visit.scope == scopes[visit.at.callPath] + env
  }

  ghost predicate WellScoped(visits: seq<PlanVisit>, scopes: map<string, Scope>, env: Scope) {
    forall i | 0 <= i < |visits| :: Sees(visits[i], scopes, env)
  }

  /** Every visit sees its own scope; a failure is blamed on the scope of the last one. */
  ghost predicate AsPlanned(h: Host, plan: (Progress, bool), scopes: map<string, Scope>, env: Scope) {
    var visits := plan.0.visits;
    && WellScoped(visits, scopes, env)
    && (plan.1 || (visits != [] && Refuses(h, visits[|visits| - 1].scope)))
  }

  /** Version `v` runs at call site `site`, whose frozen values are `values`. */
  ghost predicate Scoped(src: Sources, rank: map<string, nat>, scopes: map<string, Scope>,
    v: string, site: string, values: Scope)
  {
    && At(src, rank, v, site) && Bound(src, rank, scopes) && AllShaped(src.g, rank)
    && site in scopes && scopes[site] == values
  }

  lemma StartPlanned(h: Host, r: Progress, at: Meta, scopes: map<string, Scope>, env: Scope)
    requires Agreeable(h) && WellScoped(r.visits, scopes, env) && at.callPath in scopes
    ensures var (r1, begun) := Start(h, r, at, scopes[at.callPath] + env); begun && WellScoped(r1.visits, scopes, env)
  {
  }

  lemma StopPlanned(h: Host, plan: (Progress, bool), scopes: map<string, Scope>, env: Scope)
    requires Agreeable(h) && AsPlanned(h, plan, scopes, env)
    ensures AsPlanned(h, Stop(h, plan.0, plan.1), scopes, env)
  {
    hide Refuses;
  }

  lemma PerformPlanned(h: Host, r: Progress, at: Meta, scopes: map<string, Scope>, env: Scope, leaf: Leaf)
    requires Agreeable(h) && WellScoped(r.visits, scopes, env) && at.callPath in scopes
    ensures AsPlanned(h, Perform(h, r, at, scopes[at.callPath] + env, leaf), scopes, env)
  {
    AgreeableLeaf(h, r.clock, leaf, scopes[at.callPath] + env);
    hide LeafScript, Agreeable, Refuses;
  }

  lemma {:induction false} StepsPlanned(h: Host, src: Sources, rank: map<string, nat>, scopes: map<string, Scope>,
    env: Scope, r: Progress, v: string, site: string, values: Scope, steps: seq<Step>)
    requires Agreeable(h) && Scoped(src, rank, scopes, v, site, values) && WellScoped(r.visits, scopes, env)
    requires Part(src, rank, v, site, RefIds(steps)) && Shaped(steps)
    ensures AsPlanned(h, MeanSteps(h, src, rank, r, v, site, values, env, steps), scopes, env)
    decreases rank[v], steps, 0, 0
  {
    if steps != [] {
      var (r1, ok) := MeanStep(h, src, rank, r, v, site, values, env, steps[0]);
      StepPlanned(h, src, rank, scopes, env, r, v, site, values, steps[0]);
      if ok { StepsPlanned(h, src, rank, scopes, env, r1, v, site, values, steps[1..]); }
      hide Agreeable, Scoped, WellScoped, Refuses, Part, MeanStep;
    }
  }

  lemma {:induction false} TimesPlanned(h: Host, src: Sources, rank: map<string, nat>, scopes: map<string, Scope>,
    env: Scope, r: Progress, v: string, site: string, values: Scope, steps: seq<Step>, n: nat)
    requires Agreeable(h) && Scoped(src, rank, scopes, v, site, values) && WellScoped(r.visits, scopes, env)
    requires Part(src, rank, v, site, RefIds(steps)) && Shaped(steps)
    ensures AsPlanned(h, MeanTimes(h, src, rank, r, v, site, values, env, steps, n), scopes, env)
    decreases rank[v], steps, 1, n
  {
    if n > 0 {
      var (r1, ok) := MeanSteps(h, src, rank, r, v, site, values, env, steps);
      StepsPlanned(h, src, rank, scopes, env, r, v, site, values, steps);
      if ok { TimesPlanned(h, src, rank, scopes, env, r1, v, site, values, steps, n - 1); }
      hide Agreeable, Scoped, WellScoped, Refuses, Part, MeanSteps;
    }
  }

  lemma {:induction false} StepPlanned(h: Host, src: Sources, rank: map<string, nat>, scopes: map<string, Scope>,
    env: Scope, r: Progress, v: string, site: string, values: Scope, step: Step)
    requires Agreeable(h) && Scoped(src, rank, scopes, v, site, values) && WellScoped(r.visits, scopes, env)
    requires Part(src, rank, v, site, RefIdsOf(step)) && ShapedStep(step)
    ensures AsPlanned(h, MeanStep(h, src, rank, r, v, site, values, env, step), scopes, env)
    decreases rank[v], step, 1, 0
  {
    var at := StepMeta(step.id, site);
    StartPlanned(h, r, at, scopes, env);
    var (r1, begun) := Start(h, r, at, values + env);
    if step.RepeatStep? {
      TimesPlanned(h, src, rank, scopes, env, r1, v, site, values, step.children, step.times);
      StopPlanned(h, MeanTimes(h, src, rank, r1, v, site, values, env, step.children, step.times), scopes, env);
      hide Agreeable, Scoped, WellScoped, AsPlanned, Part, MeanTimes, Start, Stop;
    } else if step.ReferenceStep? {
      CallPlanned(h, src, rank, scopes, env, r1, v, site, values, step);
      StopPlanned(h, MeanCall(h, src, rank, r1, v, site, values, env, step), scopes, env);
      hide Agreeable, Scoped, WellScoped, AsPlanned, Part, MeanCall, Start, Stop;
    } else {
      PerformPlanned(h, r, at, scopes, env, Performs(step));
      hide Agreeable, WellScoped, AsPlanned, Part, Perform, Start;
    }
  }

  lemma {:induction false} CallPlanned(h: Host, src: Sources, rank: map<string, nat>, scopes: map<string, Scope>,
    env: Scope, r: Progress, v: string, site: string, values: Scope, step: Step)
    requires step.ReferenceStep? && Part(src, rank, v, site, RefIdsOf(step))
    requires Agreeable(h) && Scoped(src, rank, scopes, v, site, values) && WellScoped(r.visits, scopes, env)
    ensures AsPlanned(h, MeanCall(h, src, rank, r, v, site, values, env, step), scopes, env)
    decreases rank[v], step, 0, 0
  {
    PartCalls(src, rank, v, site, step.id);
    var t, call := Target(src.g, v, step.id), src.calls[CallKey(site, step.id)];
    assert CallBound(src, scopes, site, v, step.id);
    WorkflowPlanned(h, src, rank, scopes, env, r, t, call.path, call.values);
    hide Agreeable, WellScoped, AsPlanned, MeanWorkflow, Part, ScopeOf;
  }

  lemma {:induction false} WorkflowPlanned(h: Host, src: Sources, rank: map<string, nat>, scopes: map<string, Scope>,
    env: Scope, r: Progress, v: string, site: string, values: Scope)
    requires Agreeable(h) && Scoped(src, rank, scopes, v, site, values) && WellScoped(r.visits, scopes, env)
    ensures AsPlanned(h, MeanWorkflow(h, src, rank, r, v, site, values, env), scopes, env)
    decreases rank[v], src.g.workflows[v].steps, 2, 0
  {
    var at, steps := WorkflowMeta(v, site), src.g.workflows[v].steps;
    StartPlanned(h, r, at, scopes, env);
    var r1 := Start(h, r, at, values + env).0;
    assert Shaped(StepsOf(src.g, v));
    StepsPlanned(h, src, rank, scopes, env, r1, v, site, values, steps);
    StopPlanned(h, MeanSteps(h, src, rank, r1, v, site, values, env, steps), scopes, env);
    hide Agreeable, Scoped, WellScoped, AsPlanned, MeanSteps, Start, Stop;
  }

  // ----- the perfect run of a tree -----

  /** Nothing in the tree can fail by itself, and every repeat runs its body. */
  predicate Smooth(node: Node) {
    match node
    case LeafNode(_, _) => true
    case RepeatNode(_, times, children) => times >= 1 && SmoothAll(children)
    case WorkflowNode(_, steps, owned) => owned.None? && SmoothAll(steps)
    case CallNode(_, target, values, constraints) => BindingsHold(values, constraints) && Smooth(target)
  }

  predicate SmoothAll(nodes: seq<Node>) {
    nodes == [] || (Smooth(nodes[0]) && SmoothAll(nodes[1..]))
  }

  /** The run succeeded, and went on from where it began. */
  ghost predicate WentOn(before: State, run: (State, bool)) {
    run.1 && before.visits <= run.0.visits && before.clock <= run.0.clock
  }

  lemma WentOnThen(a: State, b: (State, bool), c: (State, bool))
    requires WentOn(a, b) && WentOn(b.0, c)
    ensures WentOn(a, c)
  {
  }

  lemma PerfectLeaf(s: State, scope: Scope, id: string, leaf: Leaf)
    ensures WentOn(s, ExecLeaf(PERFECT, s, scope, id, leaf))
    ensures Visit(id, scope) in ExecLeaf(PERFECT, s, scope, id, leaf).0.visits
  {
  }

  lemma {:induction false} RunsThrough(s: State, scope: Scope, node: Node)
    requires Smooth(node)
    ensures WentOn(s, Exec(PERFECT, s, scope, node))
    decreases node, 0, 0
  {
    match node {
      case LeafNode(id, leaf) => PerfectLeaf(s, scope, id, leaf);
      case RepeatNode(id, times, children) =>
        RunsThroughTimes(Begin(PERFECT, s, scope, id).0, scope, children, times);
      case WorkflowNode(id, steps, _) =>
        RunsThroughAll(Begin(PERFECT, s, scope, id).0, scope, steps);
      case CallNode(id, target, values, _) =>
        RunsThrough(Begin(PERFECT, s, scope, id).0, CallScope(values, scope), target);
    }
  }

  lemma {:induction false} RunsThroughAll(s: State, scope: Scope, nodes: seq<Node>)
    requires SmoothAll(nodes)
    ensures WentOn(s, ExecAll(PERFECT, s, scope, nodes))
    decreases nodes, 0, 0
  {
    if nodes != [] {
      var run := Exec(PERFECT, s, scope, nodes[0]);
      RunsThrough(s, scope, nodes[0]);
      RunsThroughAll(run.0, scope, nodes[1..]);
      WentOnThen(s, run, ExecAll(PERFECT, run.0, scope, nodes[1..]));
    }
  }

  lemma {:induction false} RunsThroughTimes(s: State, scope: Scope, nodes: seq<Node>, n: nat)
    requires SmoothAll(nodes)
    ensures WentOn(s, ExecTimes(PERFECT, s, scope, nodes, n))
    decreases nodes, 1, n
  {
    if n > 0 {
      var run := ExecAll(PERFECT, s, scope, nodes);
      RunsThroughAll(s, scope, nodes);
      RunsThroughTimes(run.0, scope, nodes, n - 1);
      WentOnThen(s, run, ExecTimes(PERFECT, run.0, scope, nodes, n - 1));
    }
  }

  // ----- a refusal changes nothing before its tick -----

  lemma {:induction false} SparedLeaf(at: nat, refused: Scope, s: State, scope: Scope, id: string, leaf: Leaf)
    requires ExecLeaf(PERFECT, s, scope, id, leaf).0.clock <= at
    ensures ExecLeaf(Refusing(at, refused), s, scope, id, leaf) == ExecLeaf(PERFECT, s, scope, id, leaf)
  {
  }

  lemma {:induction false} Spared(at: nat, refused: Scope, s: State, scope: Scope, node: Node)
    requires Smooth(node) && Exec(PERFECT, s, scope, node).0.clock <= at
    ensures Exec(Refusing(at, refused), s, scope, node) == Exec(PERFECT, s, scope, node)
    decreases node, 0, 0
  {
    match node {
      case LeafNode(id, leaf) => SparedLeaf(at, refused, s, scope, id, leaf);
      case RepeatNode(id, times, children) =>
        var s1 := Begin(PERFECT, s, scope, id).0;
        RunsThroughTimes(s1, scope, children, times);
        SparedTimes(at, refused, s1, scope, children, times);
      case WorkflowNode(id, steps, _) =>
        var s1 := Begin(PERFECT, s, scope, id).0;
        RunsThroughAll(s1, scope, steps);
        SparedAll(at, refused, s1, scope, steps);
      case CallNode(id, target, values, _) =>
        var s1 := Begin(PERFECT, s, scope, id).0;
        RunsThrough(s1, CallScope(values, scope), target);
        Spared(at, refused, s1, CallScope(values, scope), target);
    }
  }

  lemma {:induction false} SparedAll(at: nat, refused: Scope, s: State, scope: Scope, nodes: seq<Node>)
    requires SmoothAll(nodes) && ExecAll(PERFECT, s, scope, nodes).0.clock <= at
    ensures ExecAll(Refusing(at, refused), s, scope, nodes) == ExecAll(PERFECT, s, scope, nodes)
    decreases nodes, 0, 0
  {
    if nodes != [] {
      var run := Exec(PERFECT, s, scope, nodes[0]);
      RunsThrough(s, scope, nodes[0]);
      RunsThroughAll(run.0, scope, nodes[1..]);
      Spared(at, refused, s, scope, nodes[0]);
      SparedAll(at, refused, run.0, scope, nodes[1..]);
      hide Exec;
    }
  }

  lemma {:induction false} SparedTimes(at: nat, refused: Scope, s: State, scope: Scope, nodes: seq<Node>, n: nat)
    requires SmoothAll(nodes) && ExecTimes(PERFECT, s, scope, nodes, n).0.clock <= at
    ensures ExecTimes(Refusing(at, refused), s, scope, nodes, n) == ExecTimes(PERFECT, s, scope, nodes, n)
    decreases nodes, 1, n
  {
    if n > 0 {
      var run := ExecAll(PERFECT, s, scope, nodes);
      RunsThroughAll(s, scope, nodes);
      RunsThroughTimes(run.0, scope, nodes, n - 1);
      SparedAll(at, refused, s, scope, nodes);
      SparedTimes(at, refused, run.0, scope, nodes, n - 1);
      hide ExecAll;
    }
  }

  // ----- what runs inside a tree, and in which scope -----

  /** When `node` runs in `scope`, its part `c` runs in `inner`. */
  ghost predicate Inside(c: Node, inner: Scope, node: Node, scope: Scope)
    decreases node
  {
    (c == node && inner == scope) ||
    match node
    case LeafNode(_, _) => false
    case RepeatNode(_, _, children) => InsideAny(c, inner, children, scope)
    case WorkflowNode(_, steps, _) => InsideAny(c, inner, steps, scope)
    case CallNode(_, target, values, _) => Inside(c, inner, target, CallScope(values, scope))
  }

  ghost predicate InsideAny(c: Node, inner: Scope, nodes: seq<Node>, scope: Scope)
    decreases nodes
  {
    nodes != [] && (Inside(c, inner, nodes[0], scope) || InsideAny(c, inner, nodes[1..], scope))
  }

  lemma {:induction false} InsideInside(a: Node, x: Scope, b: Node, y: Scope, node: Node, scope: Scope)
    requires Inside(a, x, b, y) && Inside(b, y, node, scope)
    ensures Inside(a, x, node, scope)
    decreases node
  {
    if b != node || y != scope {
      match node {
        case LeafNode(_, _) =>
        case RepeatNode(_, _, children) => InsideInsideAny(a, x, b, y, children, scope);
        case WorkflowNode(_, steps, _) => InsideInsideAny(a, x, b, y, steps, scope);
        case CallNode(_, target, values, _) => InsideInside(a, x, b, y, target, CallScope(values, scope));
      }
    }
  }

  lemma {:induction false} InsideInsideAny(a: Node, x: Scope, b: Node, y: Scope, nodes: seq<Node>, scope: Scope)
    requires Inside(a, x, b, y) && InsideAny(b, y, nodes, scope)
    ensures InsideAny(a, x, nodes, scope)
    decreases nodes
  {
    if Inside(b, y, nodes[0], scope) {
      InsideInside(a, x, b, y, nodes[0], scope);
    } else {
      InsideInsideAny(a, x, b, y, nodes[1..], scope);
    }
  }

  // ----- the perfect run visits everything -----

  lemma VisitStays(visit: Visit, visits: seq<Visit>, more: seq<Visit>)
    requires visit in visits && visits <= more
    ensures visit in more
  {
    var i :| 0 <= i < |visits| && visits[i] == visit;
    assert more[i] == visit;
  }

  /** A container is visited as it begins, and its content does not undo that. */
  lemma BegunIsVisited(s: State, scope: Scope, id: string, run: (State, bool))
    requires WentOn(Begin(PERFECT, s, scope, id).0, run)
    ensures Visit(id, scope) in run.0.visits
  {
    var begun := Begin(PERFECT, s, scope, id).0.visits;
    assert begun[|s.visits|] == Visit(id, scope);
    VisitStays(Visit(id, scope), begun, run.0.visits);
  }

  lemma {:induction false} NodeIsVisited(s: State, scope: Scope, node: Node)
    requires Smooth(node)
    ensures Visit(node.id, scope) in Exec(PERFECT, s, scope, node).0.visits
  {
    var s1 := Begin(PERFECT, s, scope, node.id).0;
    match node {
      case LeafNode(id, leaf) => PerfectLeaf(s, scope, id, leaf);
      case RepeatNode(id, times, children) =>
        RunsThroughTimes(s1, scope, children, times);
        BegunIsVisited(s, scope, id, ExecTimes(PERFECT, s1, scope, children, times));
      case WorkflowNode(id, steps, _) =>
        RunsThroughAll(s1, scope, steps);
        BegunIsVisited(s, scope, id, ExecAll(PERFECT, s1, scope, steps));
      case CallNode(id, target, values, _) =>
        RunsThrough(s1, CallScope(values, scope), target);
        BegunIsVisited(s, scope, id, Exec(PERFECT, s1, CallScope(values, scope), target));
    }
  }

  lemma {:induction false} PartIsVisited(c: Node, inner: Scope, s: State, scope: Scope, node: Node)
    requires Smooth(node) && Inside(c, inner, node, scope)
    ensures Visit(c.id, inner) in Exec(PERFECT, s, scope, node).0.visits
    decreases node, 0, 0
  {
    if c == node && inner == scope {
      NodeIsVisited(s, scope, node);
    } else {
      var s1 := Begin(PERFECT, s, scope, node.id).0;
      match node {
        case RepeatNode(_, times, children) =>
          PartIsVisitedTimes(c, inner, s1, scope, children, times);
          RunsThroughTimes(s1, scope, children, times);
        case WorkflowNode(_, steps, _) =>
          PartIsVisitedAll(c, inner, s1, scope, steps);
          RunsThroughAll(s1, scope, steps);
        case CallNode(_, target, values, _) =>
          PartIsVisited(c, inner, s1, CallScope(values, scope), target);
          RunsThrough(s1, CallScope(values, scope), target);
      }
    }
  }

  lemma {:induction false} PartIsVisitedAll(c: Node, inner: Scope, s: State, scope: Scope, nodes: seq<Node>)
    requires SmoothAll(nodes) && InsideAny(c, inner, nodes, scope)
    ensures Visit(c.id, inner) in ExecAll(PERFECT, s, scope, nodes).0.visits
    decreases nodes, 0, 0
  {
    var s1 := Exec(PERFECT, s, scope, nodes[0]).0;
    RunsThrough(s, scope, nodes[0]);
    RunsThroughAll(s1, scope, nodes[1..]);
    if Inside(c, inner, nodes[0], scope) {
      PartIsVisited(c, inner, s, scope, nodes[0]);
      VisitStays(Visit(c.id, inner), s1.visits, ExecAll(PERFECT, s1, scope, nodes[1..]).0.visits);
    } else {
      PartIsVisitedAll(c, inner, s1, scope, nodes[1..]);
    }
    hide Exec;
  }

  lemma {:induction false} PartIsVisitedTimes(c: Node, inner: Scope, s: State, scope: Scope, nodes: seq<Node>, n: nat)
    requires SmoothAll(nodes) && InsideAny(c, inner, nodes, scope) && n >= 1
    ensures Visit(c.id, inner) in ExecTimes(PERFECT, s, scope, nodes, n).0.visits
    decreases nodes, 1, n
  {
    var s1 := ExecAll(PERFECT, s, scope, nodes).0;
    RunsThroughAll(s, scope, nodes);
    PartIsVisitedAll(c, inner, s, scope, nodes);
    RunsThroughTimes(s1, scope, nodes, n - 1);
    VisitStays(Visit(c.id, inner), s1.visits, ExecTimes(PERFECT, s1, scope, nodes, n - 1).0.visits);
    hide ExecAll;
  }

  // ----- some host fails every leaf that reads -----

  /** The run failed at its last visit. */
  ghost predicate FailedAt(run: (State, bool), visit: Visit) {
    !run.1 && run.0.visits != [] && run.0.visits[|run.0.visits| - 1] == visit
  }

  lemma LeafCanFail(s: State, scope: Scope, id: string, leaf: Leaf) returns (at: nat)
    requires ReadsScope(leaf)
    ensures at >= s.clock && FailedAt(ExecLeaf(Refusing(at, scope), s, scope, id, leaf), Visit(id, scope))
  {
    at := if leaf.ActionLeaf? then s.clock + 3 else s.clock + 4;
  }

  lemma {:induction false} PartCanFail(c: Node, inner: Scope, s: State, scope: Scope, node: Node) returns (at: nat)
    requires Smooth(node) && Inside(c, inner, node, scope) && c.LeafNode? && ReadsScope(c.leaf)
    ensures at >= s.clock && FailedAt(Exec(Refusing(at, inner), s, scope, node), Visit(c.id, inner))
    decreases node, 0, 0
  {
    if c == node && inner == scope {
      at := LeafCanFail(s, scope, c.id, c.leaf);
    } else {
      var s1 := Begin(PERFECT, s, scope, node.id).0;
      match node {
        case RepeatNode(_, times, children) => at := PartCanFailTimes(c, inner, s1, scope, children, times);
        case WorkflowNode(_, steps, _) => at := PartCanFailAll(c, inner, s1, scope, steps);
        case CallNode(_, target, values, _) => at := PartCanFail(c, inner, s1, CallScope(values, scope), target);
      }
    }
  }

  lemma {:induction false} PartCanFailAll(c: Node, inner: Scope, s: State, scope: Scope, nodes: seq<Node>)
    returns (at: nat)
    requires SmoothAll(nodes) && InsideAny(c, inner, nodes, scope) && c.LeafNode? && ReadsScope(c.leaf)
    ensures at >= s.clock && FailedAt(ExecAll(Refusing(at, inner), s, scope, nodes), Visit(c.id, inner))
    decreases nodes, 0, 0
  {
    if Inside(c, inner, nodes[0], scope) {
      at := PartCanFail(c, inner, s, scope, nodes[0]);
    } else {
      var s1 := Exec(PERFECT, s, scope, nodes[0]).0;
      RunsThrough(s, scope, nodes[0]);
      at := PartCanFailAll(c, inner, s1, scope, nodes[1..]);
      Spared(at, inner, s, scope, nodes[0]);
    }
    hide Exec;
  }

  lemma {:induction false} PartCanFailTimes(c: Node, inner: Scope, s: State, scope: Scope, nodes: seq<Node>, n: nat)
    returns (at: nat)
    requires SmoothAll(nodes) && InsideAny(c, inner, nodes, scope) && c.LeafNode? && ReadsScope(c.leaf) && n >= 1
    ensures at >= s.clock && FailedAt(ExecTimes(Refusing(at, inner), s, scope, nodes, n), Visit(c.id, inner))
    decreases nodes, 1, n
  {
    at := PartCanFailAll(c, inner, s, scope, nodes);
    hide ExecAll;
  }

  // ----- compiled trees -----

  lemma {:induction false} StepsSmooth(src: Sources, rank: map<string, nat>, v: string, path: seq<string>,
    scope: string, steps: seq<Step>)
    requires Part(src, rank, v, scope, RefIds(steps)) && Shaped(steps) && AllShaped(src.g, rank)
    ensures SmoothAll(StepsTree(src, rank, v, path, scope, steps))
    decreases rank[v], steps, 0
  {
    if steps != [] {
      StepSmooth(src, rank, v, path, scope, steps[0]);
      StepsSmooth(src, rank, v, path, scope, steps[1..]);
      hide Part, Smooth, StepTree, AllShaped;
    }
  }

  lemma {:induction false} StepSmooth(src: Sources, rank: map<string, nat>, v: string, path: seq<string>,
    scope: string, step: Step)
    requires Part(src, rank, v, scope, RefIdsOf(step)) && ShapedStep(step) && AllShaped(src.g, rank)
    ensures Smooth(StepTree(src, rank, v, path, scope, step))
    decreases rank[v], step, 1
  {
    if step.RepeatStep? {
      StepsSmooth(src, rank, v, path, scope, step.children);
    } else if step.ReferenceStep? {
      PartCalls(src, rank, v, scope, step.id);
      var t := Target(src.g, v, step.id);
      WorkflowSmooth(src, rank, t, path + [step.id, t], src.calls[CallKey(scope, step.id)].path);
      hide Part, AllShaped, BindingsHold;
    }
  }

  lemma {:induction false} WorkflowSmooth(src: Sources, rank: map<string, nat>, v: string, path: seq<string>,
    scope: string)
    requires At(src, rank, v, scope) && AllShaped(src.g, rank)
    ensures Smooth(WorkflowTree(src, rank, v, path, scope))
    decreases rank[v], src.g.workflows[v].steps, 1
  {
    assert Shaped(StepsOf(src.g, v));
    StepsSmooth(src, rank, v, path, scope, src.g.workflows[v].steps);
  }

  /** The node compiled for reference step `id` of a call site. */
  ghost function CallAt(src: Sources, rank: map<string, nat>, v: string, path: seq<string>, scope: string, id: string): (c: Node)
    requires Part(src, rank, v, scope, {id})
    ensures c.CallNode? && c.target.WorkflowNode?
  {
    PartCalls(src, rank, v, scope, id);
    var t, call := Target(src.g, v, id), src.calls[CallKey(scope, id)];
    CallNode(Codec.StepRuntimeId(path, id), WorkflowTree(src, rank, t, path + [id, t], call.path),
      call.values, Schemas(src.g.workflows[t].parameters))
  }

  lemma {:induction false} StepsHold(src: Sources, rank: map<string, nat>, v: string, path: seq<string>,
    site: string, steps: seq<Step>, id: string, scope: Scope)
    requires Part(src, rank, v, site, RefIds(steps)) && id in RefIds(steps)
    ensures InsideAny(CallAt(src, rank, v, path, site, id), scope, StepsTree(src, rank, v, path, site, steps), scope)
    decreases steps, 0
  {
    if id in RefIdsOf(steps[0]) {
      StepHolds(src, rank, v, path, site, steps[0], id, scope);
    } else {
      StepsHold(src, rank, v, path, site, steps[1..], id, scope);
    }
    hide CallAt, StepTree, Inside;
  }

  lemma {:induction false} StepHolds(src: Sources, rank: map<string, nat>, v: string, path: seq<string>,
    site: string, step: Step, id: string, scope: Scope)
    requires Part(src, rank, v, site, RefIdsOf(step)) && id in RefIdsOf(step)
    ensures Inside(CallAt(src, rank, v, path, site, id), scope, StepTree(src, rank, v, path, site, step), scope)
    decreases step, 1
  {
    if step.RepeatStep? { StepsHold(src, rank, v, path, site, step.children, id, scope); }
  }

  /** A leaf of the call site `path` leads to, whose texts may name parameters. */
  ghost predicate Reader(path: seq<string>, c: Node) {
    c.LeafNode? && ReadsScope(c.leaf) && exists id :: c.id == Codec.StepRuntimeId(path, id)
  }

  /** Steps that read parameters are compiled to a tree with a leaf that does. */
  lemma {:induction false} StepsReadInside(src: Sources, rank: map<string, nat>, v: string, path: seq<string>,
    site: string, steps: seq<Step>, scope: Scope) returns (c: Node)
    requires Part(src, rank, v, site, RefIds(steps)) && StepsRead(steps)
    ensures Reader(path, c) && InsideAny(c, scope, StepsTree(src, rank, v, path, site, steps), scope)
    decreases steps, 0
  {
    if StepReads(steps[0]) {
      c := StepReadsInside(src, rank, v, path, site, steps[0], scope);
    } else {
      c := StepsReadInside(src, rank, v, path, site, steps[1..], scope);
    }
    hide StepTree, Inside, Reader;
  }

  lemma {:induction false} StepReadsInside(src: Sources, rank: map<string, nat>, v: string, path: seq<string>,
    site: string, step: Step, scope: Scope) returns (c: Node)
    requires Part(src, rank, v, site, RefIdsOf(step)) && StepReads(step)
    ensures Reader(path, c) && Inside(c, scope, StepTree(src, rank, v, path, site, step), scope)
    decreases step, 1
  {
    if step.RepeatStep? {
      c := StepsReadInside(src, rank, v, path, site, step.children, scope);
    } else {
      c := StepTree(src, rank, v, path, site, step);
      assert c.id == Codec.StepRuntimeId(path, step.id);
    }
  }

  // ----- every call site of a sealed snapshot is reached from an entry -----

  lemma {:induction false} CountedCalls(calls: seq<Invocation>, p: string, id: string, call: Invocation)
    requires call in calls && CalledFrom(call, p, id)
    ensures ChildCount(calls, p, id) > 0
  {
    var init := calls[..|calls| - 1];
    if call in init { CountedCalls(init, p, id, call); }
  }

  /** The index of calls finds an only child. */
  lemma {:induction false} OnlyChild(calls: seq<Invocation>, p: string, id: string, call: Invocation)
    requires ChildCount(calls, p, id) == 1 && call in calls && CalledFrom(call, p, id)
    ensures CallKey(p, id) in CallsOf(calls) && CallsOf(calls)[CallKey(p, id)] == call
  {
    var init, last := calls[..|calls| - 1], calls[|calls| - 1];
    if call in init { CountedCalls(init, p, id, call); }
    if CalledFrom(last, p, id) {
      assert call == last;
    } else {
      OnlyChild(init, p, id, call);
    }
  }

  /** When `root` runs in `scope`, version `v` runs at call site `p` in the scope `shown` names. */
  ghost predicate RunsAt(src: Sources, rank: map<string, nat>, shown: map<string, Scope>, root: Node, scope: Scope,
    v: string, path: seq<string>, p: string)
  {
    && At(src, rank, v, p) && SiteOf(src, path) == Some(p) && p in shown
    && Inside(WorkflowTree(src, rank, v, path, p), shown[p], root, scope)
  }

  /** The tree of an entry, run in the entry's own scope. */
  ghost predicate EntryTree(s: Snapshot, rank: map<string, nat>, e: Entry, root: Node, scope: Scope) {
    && e in s.entries && At(SourcesOf(s), rank, e.version, e.id)
    && root == WorkflowTree(SourcesOf(s), rank, e.version, [e.id], e.id)
    && scope == e.values + Overlay(s.environment)
  }

  lemma CallRunsAt(src: Sources, rank: map<string, nat>, shown: map<string, Scope>, root: Node, scope: Scope,
    v: string, path: seq<string>, p: string, id: string)
    requires RunsAt(src, rank, shown, root, scope, v, path, p) && id in RefIds(src.g.workflows[v].steps)
    requires Shows(src, rank, shown)
    ensures CallKey(p, id) in src.calls
    ensures var t, call := Target(src.g, v, id), src.calls[CallKey(p, id)];
            RunsAt(src, rank, shown, root, scope, t, path + [id, t], call.path)
  {
    PartCalls(src, rank, v, p, id);
    var t, call := Target(src.g, v, id), src.calls[CallKey(p, id)];
    assert CallShown(src, shown, p, v, id);
    var c, tree := CallAt(src, rank, v, path, p, id), WorkflowTree(src, rank, v, path, p);
    StepsHold(src, rank, v, path, p, src.g.workflows[v].steps, id, shown[p]);
    assert Inside(c, shown[p], tree, shown[p]);
    InsideInside(c, shown[p], tree, shown[p], root, scope);
    assert Inside(c.target, shown[call.path], c, shown[p]);
    InsideInside(c.target, shown[call.path], c, shown[p], root, scope);
    SiteOfCall(src, path, p, id, t);
  }

  /** A child call site, and the reference step of its parent that makes it. */
  lemma ChildIsCalled(s: Snapshot, p: string)
    requires CallsOk(s) && p in Sites(s) && Sites(s)[p].parent.Some?
    ensures var call, q := Sites(s)[p], Sites(s)[p].parent.value;
            && q in Sites(s) && Sites(s)[q].version in GraphOf(s).workflows
            && call.stepId in RefIds(GraphOf(s).workflows[Sites(s)[q].version].steps)
            && CallKey(q, call.stepId) in CallsOf(s.invocations)
            && CallsOf(s.invocations)[CallKey(q, call.stepId)] == call && call.path == p
  {
    SiteIsCall(s, p);
    var call, g := Sites(s)[p], GraphOf(s);
    assert CallOk(g, IndexBy(s.entries, ENTRY_KEY), Sites(s), call);
    var q := call.parent.value;
    SiteIsCall(s, q);
    assert OneChildPerEdge(g, s.invocations, Sites(s)[q]);
    assert ChildCount(s.invocations, q, call.stepId) == 1;
    OnlyChild(s.invocations, q, call.stepId, call);
  }

  /** A call site without a parent is the root of an entry's tree. */
  lemma RootIsReached(s: Snapshot, rank: map<string, nat>, p: string) returns (e: Entry, root: Node, scope: Scope)
    requires Sealed(s, rank) && p in Sites(s) && Sites(s)[p].parent.None?
    ensures EntryTree(s, rank, e, root, scope)
    ensures RunsAt(SourcesOf(s), rank, ShownOf(s), root, scope, Sites(s)[p].version, [p], p)
  {
    var src, entries := SourcesOf(s), IndexBy(s.entries, ENTRY_KEY);
    SiteIsCall(s, p);
    assert CallOk(GraphOf(s), entries, Sites(s), Sites(s)[p]);
    IndexHolds(s.entries, ENTRY_KEY, p);
    e := entries[p];
    var i :| 0 <= i < |s.entries| && s.entries[i] == e;
    EntryIsAt(s, rank, i);
    EntryIsShown(s, rank, e);
    hide Sealed, At, WorkflowTree, RunScope;
    root, scope := WorkflowTree(src, rank, e.version, [e.id], e.id), e.values + Overlay(s.environment);
  }

  /** Every call site runs somewhere in the tree of an entry, in the scope the runtime shows it. */
  lemma {:induction false} SiteIsReached(s: Snapshot, rank: map<string, nat>, p: string, n: nat)
    returns (e: Entry, root: Node, scope: Scope, path: seq<string>)
    requires Sealed(s, rank) && p in Sites(s) && Ancestry.Grounded(Sites(s), p, n)
    ensures EntryTree(s, rank, e, root, scope)
    ensures RunsAt(SourcesOf(s), rank, ShownOf(s), root, scope, Sites(s)[p].version, path, p)
    decreases n
  {
    var src, call := SourcesOf(s), Sites(s)[p];
    if call.parent.None? {
      e, root, scope := RootIsReached(s, rank, p);
      path := [p];
    } else {
      var q := call.parent.value;
      ChildIsCalled(s, p);
      SealedIsBound(s, rank);
      hide Sealed, RunsAt, EntryTree, Sites, CallsOf, GraphOf, ShownOf, Shows, Bound;
      e, root, scope, path := SiteIsReached(s, rank, q, n - 1);
      CallRunsAt(src, rank, ShownOf(s), root, scope, Sites(s)[q].version, path, q, call.stepId);
      path := path + [call.stepId, Target(src.g, Sites(s)[q].version, call.stepId)];
    }
  }

  lemma SealedIsShaped(s: Snapshot, rank: map<string, nat>)
    requires Sealed(s, rank)
    ensures AllShaped(GraphOf(s), rank)
  {
    forall v | v in rank
      ensures Shaped(StepsOf(GraphOf(s), v))
    {
      WorkflowGives(s, v);
      assert WorkflowOk(GraphOf(s).workflows[v]);
    }
  }

  lemma SiteIsGrounded(s: Snapshot, p: string) returns (n: nat)
    requires CallsOk(s) && p in Sites(s)
    ensures Ancestry.Grounded(Sites(s), p, n)
  {
    CallChecks.CallsAreRooted(s);
    n :| Ancestry.Grounded(Sites(s), p, n);
  }

  // ----- what a departure from the plan shows -----

  /** The run of an entry's program, and the plan it stands for, under an agreeable host. */
  lemma EntryIsPlanned(h: Host, s: Snapshot, rank: map<string, nat>, e: Entry)
    requires Agreeable(h) && Sealed(s, rank) && e in s.entries && At(SourcesOf(s), rank, e.version, e.id)
    ensures AsPlanned(h, MeanEntry(h, s, rank, e), ScopesOf(Sites(s)), Overlay(s.environment))
  {
    EntryHere(s, rank, e);
    SealedIsBound(s, rank);
    SealedIsShaped(s, rank);
    WorkflowPlanned(h, SourcesOf(s), rank, ScopesOf(Sites(s)), Overlay(s.environment), Progress(0, []),
      e.version, e.id, e.values);
    hide Sealed, MeanWorkflow, Agreeable, Bound, Shows;
  }

  lemma EntryIsSmooth(s: Snapshot, rank: map<string, nat>, e: Entry, root: Node, scope: Scope)
    requires Sealed(s, rank) && EntryTree(s, rank, e, root, scope)
    ensures Smooth(root)
  {
    SealedIsShaped(s, rank);
    WorkflowSmooth(SourcesOf(s), rank, e.version, [e.id], e.id);
  }

  /** Where run and plan show the same parameters, the container of a call site shows its own. */
  lemma ContainerTells(src: Sources, metadata: map<string, Meta>, s: State, r: Progress, scopes: map<string, Scope>,
    env: Scope, path: seq<string>, p: string, seen: Scope)
    requires Agree(metadata, s, r, true) && WellScoped(r.visits, scopes, env) && Truthful(src, metadata)
    requires SiteOf(src, path) == Some(p) && p in src.versions
    requires Visit(Codec.WorkflowRuntimeId(path), seen) in s.visits
    ensures p in scopes && seen == scopes[p] + env
  {
    var visit := Visit(Codec.WorkflowRuntimeId(path), seen);
    var i :| 0 <= i < |s.visits| && s.visits[i] == visit;
    assert Stands(metadata, s.visits[i], r.visits[i], true) && Sees(r.visits[i], scopes, env);
    WorkflowIsDescribed(src, metadata, path, src.versions[p], p);
  }

  /** Where run and plan fail at the same step, and the plan blames its scope, a refused reader saw its own. */
  lemma ReaderTells(src: Sources, metadata: map<string, Meta>, run: (State, bool), plan: (Progress, bool),
    scopes: map<string, Scope>, env: Scope, path: seq<string>, p: string, c: Node, at: nat, seen: Scope)
    requires Together(metadata, run, plan, false) && Truthful(src, metadata) && seen != map[]
    requires AsPlanned(Refusing(at, seen), plan, scopes, env)
    requires SiteOf(src, path) == Some(p) && Reader(path, c) && FailedAt(run, Visit(c.id, seen))
    ensures p in scopes && seen == scopes[p] + env
  {
    var last := |run.0.visits| - 1;
    var id :| c.id == Codec.StepRuntimeId(path, id);
    assert Stands(metadata, run.0.visits[last], plan.0.visits[last], false) && Sees(plan.0.visits[last], scopes, env);
    StepIsDescribed(src, metadata, path, p, id);
    RefusingIsAgreeable(at, seen);
    hide Refuses, Agreeable, Refusing;
  }

  /** What an entry's tree tells of a call site, given how its program is run. */
  lemma PlaceOf(s: Snapshot, rank: map<string, nat>, root: Node, scope: Scope, path: seq<string>, p: string)
    requires p in Sites(s) && RunsAt(SourcesOf(s), rank, ShownOf(s), root, scope, Sites(s)[p].version, path, p)
    ensures SiteOf(SourcesOf(s), path) == Some(p) && p in SourcesOf(s).versions && p in ShownOf(s)
    ensures At(SourcesOf(s), rank, Sites(s)[p].version, p)
    ensures var tree := WorkflowTree(SourcesOf(s), rank, Sites(s)[p].version, path, p);
            tree.WorkflowNode? && tree.id == Codec.WorkflowRuntimeId(path) && Inside(tree, ShownOf(s)[p], root, scope)
  {
    hide Inside, ShownOf, StepsTree;
  }

  lemma EntryIsCompiled(s: Snapshot, rank: map<string, nat>, e: Entry, root: Node, scope: Scope, c: CompiledEntry, h: Host)
    requires EntryTree(s, rank, e, root, scope) && Compiled(s, rank, e, c)
    ensures e in s.entries && At(SourcesOf(s), rank, e.version, e.id) && Truthful(SourcesOf(s), c.metadata)
    ensures Exec(h, INITIAL, map[], c.root) == Exec(h, INITIAL, scope, root)
  {
    CompiledRuns(h, s, rank, e, c);
    hide Exec, Compiled, At, Truthful;
  }

  lemma KeepsScopeIs(s: Snapshot, p: string)
    requires p in Sites(s)
    ensures p in ShownOf(s) && p in ScopesOf(Sites(s))
    ensures ShownOf(s)[p] == ScopesOf(Sites(s))[p] + Overlay(s.environment) ==> KeepsScope(s, p)
  {
    hide RunScope, Overlay;
  }

  /** Where the perfect run shows the plan's parameters, it shows a call site its own scope. */
  lemma PerfectRunTells(s: Snapshot, rank: map<string, nat>, e: Entry, root: Node, scope: Scope, c: CompiledEntry,
    path: seq<string>, p: string)
    requires Sealed(s, rank) && EntryTree(s, rank, e, root, scope) && Compiled(s, rank, e, c) && p in Sites(s)
    requires RunsAt(SourcesOf(s), rank, ShownOf(s), root, scope, Sites(s)[p].version, path, p)
    requires At(SourcesOf(s), rank, e.version, e.id)
    requires SameEnd(c.metadata, Exec(PERFECT, INITIAL, map[], c.root), MeanEntry(PERFECT, s, rank, e))
    ensures KeepsScope(s, p)
  {
    var src, v := SourcesOf(s), Sites(s)[p].version;
    hide *;
    PlaceOf(s, rank, root, scope, path, p);
    EntryIsSmooth(s, rank, e, root, scope);
    var tree := WorkflowTree(src, rank, v, path, p);
    PartIsVisited(tree, ShownOf(s)[p], INITIAL, scope, root);
    EntryIsCompiled(s, rank, e, root, scope, c, PERFECT);
    PerfectIsAgreeable();
    EntryIsPlanned(PERFECT, s, rank, e);
    var run, plan := Exec(PERFECT, INITIAL, scope, root), MeanEntry(PERFECT, s, rank, e);
    SameEndIs(c.metadata, run, plan);
    PlannedIsScoped(PERFECT, plan, ScopesOf(Sites(s)), Overlay(s.environment));
    ContainerTells(src, c.metadata, run.0, plan.0, ScopesOf(Sites(s)), Overlay(s.environment), path, p, ShownOf(s)[p]);
    KeepsScopeIs(s, p);
  }

  lemma SameEndIs(metadata: map<string, Meta>, run: (State, bool), plan: (Progress, bool))
    requires SameEnd(metadata, run, plan)
    ensures Agree(metadata, run.0, plan.0, true)
  {
  }

  lemma PlannedIsScoped(h: Host, plan: (Progress, bool), scopes: map<string, Scope>, env: Scope)
    requires AsPlanned(h, plan, scopes, env)
    ensures WellScoped(plan.0.visits, scopes, env)
  {
  }

  /** The environment reaches every call site. */
  lemma {:induction false} ShownHasEnvironment(s: Snapshot, p: string, n: string)
    requires CallsOk(s) && p in Sites(s) && n in Overlay(s.environment)
    ensures n in RunScope(Sites(s), Overlay(s.environment), p)
    decreases |p|
  {
    if Sites(s)[p].parent.Some? {
      CallIsShown(s, p);
      ShownHasEnvironment(s, Sites(s)[p].parent.value, n);
      OverlayIsEnvironment(s.environment);
    }
    hide Overlay, CallsOk;
  }

  /** A call site that is shown nothing has nothing to be shown. */
  lemma NothingIsKept(s: Snapshot, p: string)
    requires CallsOk(s) && p in Sites(s) && ShownOf(s)[p] == map[]
    ensures KeepsScope(s, p)
  {
    var env := Overlay(s.environment);
    forall n | n in env
      ensures false
    {
      ShownHasEnvironment(s, p, n);
    }
    assert env == map[];
    if Sites(s)[p].parent.Some? { CallIsShown(s, p); }
    forall n | n in Sites(s)[p].values
      ensures n in RunScope(Sites(s), env, p)
    {
    }
    assert Sites(s)[p].values == map[];
  }

  /** Inside the tree of a call site whose workflow reads parameters some leaf does. */
  lemma ReaderInside(src: Sources, rank: map<string, nat>, v: string, path: seq<string>, p: string, scope: Scope)
    returns (c: Node)
    requires At(src, rank, v, p) && StepsRead(StepsOf(src.g, v))
    ensures Reader(path, c) && Inside(c, scope, WorkflowTree(src, rank, v, path, p), scope)
  {
    c := StepsReadInside(src, rank, v, path, p, src.g.workflows[v].steps, scope);
    hide Reader, StepsTree, StepsRead;
  }

  lemma SealedCalls(s: Snapshot, rank: map<string, nat>)
    requires Sealed(s, rank)
    ensures CallsOk(s)
  {
  }

  lemma SameCourseIs(metadata: map<string, Meta>, run: (State, bool), plan: (Progress, bool))
    requires SameCourse(metadata, run, plan)
    ensures Together(metadata, run, plan, false)
  {
  }

  lemma GraphOfSources(s: Snapshot)
    ensures SourcesOf(s).g == GraphOf(s)
  {
  }

  /** A host under which the program of an entry can only keep to its plan if a reading call site keeps its scope. */
  lemma TellingHost(s: Snapshot, rank: map<string, nat>, e: Entry, root: Node, scope: Scope, c: CompiledEntry,
    path: seq<string>, p: string) returns (h: Host)
    requires Sealed(s, rank) && EntryTree(s, rank, e, root, scope) && Compiled(s, rank, e, c) && p in Sites(s)
    requires RunsAt(SourcesOf(s), rank, ShownOf(s), root, scope, Sites(s)[p].version, path, p)
    requires At(SourcesOf(s), rank, e.version, e.id) && StepsRead(StepsOf(GraphOf(s), Sites(s)[p].version))
    ensures SameCourse(c.metadata, Exec(h, INITIAL, map[], c.root), MeanEntry(h, s, rank, e)) ==> KeepsScope(s, p)
  {
    var src, v := SourcesOf(s), Sites(s)[p].version;
    hide *;
    SealedCalls(s, rank);
    PlaceOf(s, rank, root, scope, path, p);
    var seen := ShownOf(s)[p];
    if seen == map[] {
      NothingIsKept(s, p);
      h := PERFECT;
      return;
    }
    GraphOfSources(s);
    var leaf := ReaderInside(src, rank, v, path, p, seen);
    InsideInside(leaf, seen, WorkflowTree(src, rank, v, path, p), seen, root, scope);
    EntryIsSmooth(s, rank, e, root, scope);
    ReaderIsLeaf(path, leaf);
    var at := PartCanFail(leaf, seen, INITIAL, scope, root);
    h := Refusing(at, seen);
    EntryIsCompiled(s, rank, e, root, scope, c, h);
    RefusingIsAgreeable(at, seen);
    EntryIsPlanned(h, s, rank, e);
    var run, plan := Exec(h, INITIAL, scope, root), MeanEntry(h, s, rank, e);
    if SameCourse(c.metadata, run, plan) {
      SameCourseIs(c.metadata, run, plan);
      ReaderTells(src, c.metadata, run, plan, ScopesOf(Sites(s)), Overlay(s.environment), path, p, leaf, at, seen);
      KeepsScopeIs(s, p);
    }
  }

  lemma ReaderIsLeaf(path: seq<string>, c: Node)
    requires Reader(path, c)
    ensures c.LeafNode? && ReadsScope(c.leaf)
  {
  }

  // ----- the two exact conditions -----

  /** For every host the programs keep to the plan's steps and to its success or first failure. */
  ghost predicate FollowsPlan(s: Snapshot, rank: map<string, nat>, compiled: seq<CompiledEntry>)
    requires AllCompiled(s, rank, compiled)
  {
    forall h: Host, i | 0 <= i < |s.entries| ::
      SameCourse(compiled[i].metadata, Exec(h, INITIAL, map[], compiled[i].root), MeanEntry(h, s, rank, s.entries[i]))
  }

  /** For every host they show the plan's parameters at every step as well. */
  ghost predicate ShowsPlan(s: Snapshot, rank: map<string, nat>, compiled: seq<CompiledEntry>)
    requires AllCompiled(s, rank, compiled)
  {
    forall h: Host, i | 0 <= i < |s.entries| ::
      SameEnd(compiled[i].metadata, Exec(h, INITIAL, map[], compiled[i].root), MeanEntry(h, s, rank, s.entries[i]))
  }

  /** The entry below which a call site runs, and its program. */
  lemma SiteIsCompiled(s: Snapshot, rank: map<string, nat>, compiled: seq<CompiledEntry>, p: string)
    returns (i: nat, root: Node, scope: Scope, path: seq<string>)
    requires Sealed(s, rank) && AllCompiled(s, rank, compiled) && p in Sites(s)
    ensures i < |s.entries| == |compiled| && Compiled(s, rank, s.entries[i], compiled[i])
    ensures At(SourcesOf(s), rank, s.entries[i].version, s.entries[i].id)
    ensures EntryTree(s, rank, s.entries[i], root, scope)
    ensures RunsAt(SourcesOf(s), rank, ShownOf(s), root, scope, Sites(s)[p].version, path, p)
  {
    SealedCalls(s, rank);
    var n := SiteIsGrounded(s, p);
    var e;
    e, root, scope, path := SiteIsReached(s, rank, p, n);
    hide Sealed, RunsAt, At, Compiled, ShownOf, WorkflowTree;
    i :| 0 <= i < |s.entries| && s.entries[i] == e;
  }

  lemma FollowsAt(s: Snapshot, rank: map<string, nat>, compiled: seq<CompiledEntry>, h: Host, i: nat)
    requires AllCompiled(s, rank, compiled) && FollowsPlan(s, rank, compiled) && i < |s.entries|
    requires At(SourcesOf(s), rank, s.entries[i].version, s.entries[i].id)
    ensures SameCourse(compiled[i].metadata, Exec(h, INITIAL, map[], compiled[i].root), MeanEntry(h, s, rank, s.entries[i]))
  {
    hide Compiled, At, SameCourse, Exec, MeanEntry;
  }

  lemma ShowsAt(s: Snapshot, rank: map<string, nat>, compiled: seq<CompiledEntry>, h: Host, i: nat)
    requires AllCompiled(s, rank, compiled) && ShowsPlan(s, rank, compiled) && i < |s.entries|
    requires At(SourcesOf(s), rank, s.entries[i].version, s.entries[i].id)
    ensures SameEnd(compiled[i].metadata, Exec(h, INITIAL, map[], compiled[i].root), MeanEntry(h, s, rank, s.entries[i]))
  {
    hide Compiled, At, SameEnd, Exec, MeanEntry;
  }

  /**
   Compiler correctness, exactly: for every host the programs of a sealed snapshot
   go the way of their plan, with the same success or first failure, if and only
   if every call site whose workflow reads parameters is shown just its own.
   */
  lemma FollowsPlanExactly(s: Snapshot, rank: map<string, nat>, compiled: seq<CompiledEntry>)
    requires Sealed(s, rank) && AllCompiled(s, rank, compiled)
    ensures FollowsPlan(s, rank, compiled) <==> ReadersKeepScope(s)
  {
    if FollowsPlan(s, rank, compiled) {
      forall p | p in Sites(s) && StepsRead(StepsOf(GraphOf(s), Sites(s)[p].version))
        ensures KeepsScope(s, p)
      {
        hide *;
        var i, root, scope, path := SiteIsCompiled(s, rank, compiled, p);
        var h := TellingHost(s, rank, s.entries[i], root, scope, compiled[i], path, p);
        FollowsAt(s, rank, compiled, h, i);
      }
    }
    if ReadersKeepScope(s) {
      forall h: Host, i | 0 <= i < |s.entries|
        ensures SameCourse(compiled[i].metadata, Exec(h, INITIAL, map[], compiled[i].root), MeanEntry(h, s, rank, s.entries[i]))
      {
        ProgramMeansPlan(h, s, rank, s.entries[i], compiled[i]);
      }
    }
  }

  lemma ShownIsKept(s: Snapshot, rank: map<string, nat>, compiled: seq<CompiledEntry>, p: string)
    requires Sealed(s, rank) && AllCompiled(s, rank, compiled) && ShowsPlan(s, rank, compiled) && p in Sites(s)
    ensures KeepsScope(s, p)
  {
    hide *;
    var i, root, scope, path := SiteIsCompiled(s, rank, compiled, p);
    ShowsAt(s, rank, compiled, PERFECT, i);
    PerfectRunTells(s, rank, s.entries[i], root, scope, compiled[i], path, p);
  }

  lemma NoLeaksShow(s: Snapshot, rank: map<string, nat>, compiled: seq<CompiledEntry>)
    requires Sealed(s, rank) && AllCompiled(s, rank, compiled) && NoLeaks(s)
    ensures ShowsPlan(s, rank, compiled)
  {
    hide Sealed, NoLeaks, SameEnd, SameCourse, Exec, MeanEntry, ReadersKeepScope;
    forall h: Host, i | 0 <= i < |s.entries|
      ensures SameEnd(compiled[i].metadata, Exec(h, INITIAL, map[], compiled[i].root), MeanEntry(h, s, rank, s.entries[i]))
    {
      ProgramMeansPlan(h, s, rank, s.entries[i], compiled[i]);
    }
  }

  /**
   Scope correctness, exactly: for every host the programs show every step the
   parameters its plan gives it if and only if no call leaks.
   */
  lemma ShowsPlanExactly(s: Snapshot, rank: map<string, nat>, compiled: seq<CompiledEntry>)
    requires Sealed(s, rank) && AllCompiled(s, rank, compiled)
    ensures ShowsPlan(s, rank, compiled) <==> NoLeaks(s)
  {
    NoLeaksExactly(s, rank);
    hide NoLeaks, ShowsPlan, AllCompiled, Sealed, KeepsScope, ReadersKeepScope;
    if ShowsPlan(s, rank, compiled) {
      forall p | p in Sites(s)
        ensures KeepsScope(s, p)
      {
        ShownIsKept(s, rank, compiled, p);
      }
    }
    if NoLeaks(s) { NoLeaksShow(s, rank, compiled); }
  }
}

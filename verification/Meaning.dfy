/**
 What running an entry means on the plan itself: steps in order, repeats
 unrolled, references followed through their resolutions, and every call run in
 the scope its bindings give it. Compiled programs mean the same, for every host.
 */
module Meaning {
  import opened Wrappers
  import opened Parameters
  import opened Plan
  import opened Phases
  import opened Execution
  import opened Snapshots
  import opened Trees
  import opened Sealing
  import opened Compilation
  import Codec

  /** A step or workflow of the plan that began, and the parameters visible to it. */
  datatype PlanVisit = PlanVisit(at: Meta, scope: Scope)

  datatype Progress = Progress(clock: nat, visits: seq<PlanVisit>)

  /** What a step without a body does, said of the step alone: nothing here comes from the compiler. */
  function Performs(step: Step): Leaf
    requires !step.RepeatStep? && !step.ReferenceStep?
  {
    match step
    case ActionStep(_, action, target, optional) => ActionLeaf(action, target, optional)
    case WaitStep(_, wait, target, ms) => WaitLeaf(wait, if wait.SeeksElement() then target else None, ms)
    case ValidationStep(_, target, ms) => ValidationLeaf(target, ms)
    case GroupStep(_, branches, ms) => GroupLeaf(BranchesOf(branches), ms)
  }

  function MembersOf(members: seq<Member>): seq<GroupMember> {
    seq(|members|, i requires 0 <= i < |members| => GroupMember(members[i].id, members[i].target))
  }

  function BranchesOf(branches: seq<Branch>): seq<GroupBranch> {
    seq(|branches|, i requires 0 <= i < |branches| => GroupBranch(branches[i].id, MembersOf(branches[i].members)))
  }

  function Start(h: Host, r: Progress, at: Meta, scope: Scope): (Progress, bool) {
    if h.accepts(r.clock) then (Progress(r.clock + 1, r.visits + [PlanVisit(at, scope)]), true)
    else (r.(clock := r.clock + 1), false)
  }

  /** Recording how a container ended. */
  function Stop(h: Host, r: Progress, ok: bool): (Progress, bool) {
    if ok then (r.(clock := r.clock + 1), h.accepts(r.clock)) else (r.(clock := r.clock + 2), false)
  }

  function Perform(h: Host, r: Progress, at: Meta, scope: Scope, leaf: Leaf): (Progress, bool) {
    var script := LeafScript(h, r.clock, leaf, scope);
    if script.phases == [] then (r.(clock := script.clock), false)
    else (Progress(script.clock, r.visits + [PlanVisit(at, scope)]), script.ok)
  }

  /** Steps in order, stopping at the first failure. */
  ghost function MeanSteps(h: Host, src: Sources, rank: map<string, nat>, r: Progress, v: string, site: string,
    values: Scope, env: Scope, steps: seq<Step>): (Progress, bool)
    requires Part(src, rank, v, site, RefIds(steps))
    decreases rank[v], steps, 0, 0
  {
    if steps == [] then (r, true) else
    var (r1, ok) := MeanStep(h, src, rank, r, v, site, values, env, steps[0]);
    if !ok then (r1, false) else MeanSteps(h, src, rank, r1, v, site, values, env, steps[1..])
  }

  ghost function MeanTimes(h: Host, src: Sources, rank: map<string, nat>, r: Progress, v: string, site: string,
    values: Scope, env: Scope, steps: seq<Step>, n: nat): (Progress, bool)
    requires Part(src, rank, v, site, RefIds(steps))
    decreases rank[v], steps, 1, n
  {
    if n == 0 then (r, true) else
    var (r1, ok) := MeanSteps(h, src, rank, r, v, site, values, env, steps);
    if !ok then (r1, false) else MeanTimes(h, src, rank, r1, v, site, values, env, steps, n - 1)
  }

  ghost function MeanStep(h: Host, src: Sources, rank: map<string, nat>, r: Progress, v: string, site: string,
    values: Scope, env: Scope, step: Step): (Progress, bool)
    requires Part(src, rank, v, site, RefIdsOf(step))
    decreases rank[v], step, 1, 0
  {
    var at := StepMeta(step.id, site);
    match step
    case RepeatStep(_, times, children) =>
      if times < 0 then (r, false) else
      var (r1, begun) := Start(h, r, at, values + env);
      if !begun then (r1, false) else
      var (r2, ok) := MeanTimes(h, src, rank, r1, v, site, values, env, children, times);
      Stop(h, r2, ok)
    case ReferenceStep(_, _, _, _) =>
      var (r1, begun) := Start(h, r, at, values + env);
      if !begun then (r1, false) else
      var (r2, ok) := MeanCall(h, src, rank, r1, v, site, values, env, step);
      Stop(h, r2, ok)
    case _ => Perform(h, r, at, values + env, Performs(step))
  }

  /** A call: its bindings are resolved in the caller's values, and its version runs in what they give. */
  ghost function MeanCall(h: Host, src: Sources, rank: map<string, nat>, r: Progress, v: string, site: string,
    values: Scope, env: Scope, step: Step): (Progress, bool)
    requires step.ReferenceStep? && Part(src, rank, v, site, RefIdsOf(step))
    decreases rank[v], step, 0, 0
  {
    PartCalls(src, rank, v, site, step.id);
    var t := Target(src.g, v, step.id);
    var call := src.calls[CallKey(site, step.id)];
    match ScopeOf(call.bindings, src.g.workflows[t].parameters, values)
    case None => (r, false)
    case Some(inner) => MeanWorkflow(h, src, rank, r, t, call.path, inner, env)
  }

  ghost function MeanWorkflow(h: Host, src: Sources, rank: map<string, nat>, r: Progress, v: string, site: string,
    values: Scope, env: Scope): (Progress, bool)
    requires At(src, rank, v, site)
    decreases rank[v], src.g.workflows[v].steps, 2, 0
  {
    var (r1, begun) := Start(h, r, WorkflowMeta(v, site), values + env);
    if !begun then (r1, false) else
    var (r2, ok) := MeanSteps(h, src, rank, r1, v, site, values, env, src.g.workflows[v].steps);
    Stop(h, r2, ok)
  }

  // ----- sealed scopes -----

  predicate EnvironmentOnly(env: Scope) {
    forall n | n in env :: EnvName(n)
  }

  /** Nothing that only looks like an environment variable reaches the called workflow from its caller. */
  predicate LeaksNothing(values: Scope, caller: Scope, env: Scope) {
    forall n | n in caller && EnvName(n) && n !in env :: n in values && values[n] == caller[n]
  }

  /** The runtime's scope swap gives a call its own values and the environment exactly when nothing leaks. */
  lemma CallScopeExactly(values: Scope, caller: Scope, env: Scope)
    requires EnvironmentOnly(env)
    ensures CallScope(values, caller + env) == values + env <==> LeaksNothing(values, caller, env)
  {
    var scope := CallScope(values, caller + env);
    forall n
      ensures n in scope <==> n in values || n in env || (n in caller && EnvName(n))
      ensures n in env ==> scope[n] == env[n]
      ensures n !in env && n in caller && EnvName(n) ==> scope[n] == caller[n]
    {
    }
    if LeaksNothing(values, caller, env) {
      assert scope.Keys == (values + env).Keys;
    }
    if scope == values + env {
      forall n | n in caller && EnvName(n) && n !in env
        ensures n in values && values[n] == caller[n]
      {
        assert n in scope;
      }
    }
  }

  /** The scope swap really can leak: a caller's own parameter may be taken for an environment variable. */
  lemma ScopeCanLeak(value: Value)
    ensures CallScope(map[], map["env.home" := value] + map[]) == map["env.home" := value]
  {
    assert EnvName("env.home");
  }

  // ----- which steps can tell scopes apart -----

  /** Whether a step, or one repeated inside it, has texts that may name parameters. */
  predicate StepReads(step: Step) {
    match step
    case ActionStep(_, action, _, _) => Interpolates(action)
    case ValidationStep(_, _, _) => true
    case GroupStep(_, _, _) => true
    case RepeatStep(_, _, children) => StepsRead(children)
    case _ => false
  }

  predicate StepsRead(steps: seq<Step>) {
    steps != [] && (StepReads(steps[0]) || StepsRead(steps[1..]))
  }

  // ----- frozen scopes and run-time scopes -----

  /** The call a reference step makes has the frozen scope its bindings give it in its caller's. */
  ghost predicate CallBound(src: Sources, scopes: map<string, Scope>, p: string, v: string, id: string)
    requires CallLinked(src, p, v, id)
  {
    var call := src.calls[CallKey(p, id)];
    && p in scopes && call.path in scopes && scopes[call.path] == call.values
    && ScopeOf(call.bindings, src.g.workflows[call.version].parameters, scopes[p]) == Some(call.values)
  }

  /** `scopes` gives every call site its frozen values. */
  ghost predicate Bound(src: Sources, rank: map<string, nat>, scopes: map<string, Scope>)
    requires Linked(src, rank)
  {
    forall p, id | p in src.versions && src.versions[p] in rank
      && id in RefIds(src.g.workflows[src.versions[p]].steps) :: CallBound(src, scopes, p, src.versions[p], id)
  }

  ghost predicate CallShown(src: Sources, shown: map<string, Scope>, p: string, v: string, id: string)
    requires CallLinked(src, p, v, id)
  {
    var call := src.calls[CallKey(p, id)];
    p in shown && call.path in shown && shown[call.path] == CallScope(call.values, shown[p])
  }

  /** `shown` gives every call site the scope the runtime swaps in for it. */
  ghost predicate Shows(src: Sources, rank: map<string, nat>, shown: map<string, Scope>)
    requires Linked(src, rank)
  {
    forall p, id | p in src.versions && src.versions[p] in rank
      && id in RefIds(src.g.workflows[src.versions[p]].steps) :: CallShown(src, shown, p, src.versions[p], id)
  }

  /**
   Wherever a workflow reads parameters, the runtime shows it its frozen values and
   the environment; when `scoped`, it does so everywhere.
   */
  ghost predicate Faithful(src: Sources, scopes: map<string, Scope>, shown: map<string, Scope>, env: Scope, scoped: bool) {
    forall p | p in src.versions && p in scopes && p in shown && (scoped || StepsRead(StepsOf(src.g, src.versions[p]))) ::
      shown[p] == scopes[p] + env
  }

  // ----- the compiled run follows the plan -----

  /**
   The run and the plan have come equally far, and every visited node stands for
   its plan visit; when `scoped`, the parameters visible there are the same too.
   */
  ghost predicate Agree(metadata: map<string, Meta>, s: State, r: Progress, scoped: bool) {
    && s.clock == r.clock && |s.visits| == |r.visits|
    && forall i | 0 <= i < |s.visits| :: Stands(metadata, s.visits[i], r.visits[i], scoped)
  }

  predicate Stands(metadata: map<string, Meta>, visit: Visit, plan: PlanVisit, scoped: bool) {
    visit.node in metadata && plan.at == metadata[visit.node] && (scoped ==> plan.scope == visit.scope)
  }

  ghost predicate Together(metadata: map<string, Meta>, run: (State, bool), plan: (Progress, bool), scoped: bool) {
    run.1 == plan.1 && Agree(metadata, run.0, plan.0, scoped)
  }

  /** The same plan steps at the same call sites, and the same success or first failure. */
  ghost predicate SameCourse(metadata: map<string, Meta>, run: (State, bool), plan: (Progress, bool)) {
    Together(metadata, run, plan, false)
  }

  /** The same course, with the same parameters visible at every step. */
  ghost predicate SameEnd(metadata: map<string, Meta>, run: (State, bool), plan: (Progress, bool)) {
    Together(metadata, run, plan, true)
  }

  lemma StartAgrees(h: Host, metadata: map<string, Meta>, s: State, r: Progress, scope: Scope, seen: Scope, id: string,
    scoped: bool)
    requires Agree(metadata, s, r, scoped) && id in metadata && (scoped ==> scope == seen)
    ensures Together(metadata, Begin(h, s, scope, id), Start(h, r, metadata[id], seen), scoped)
  {
    assert Stands(metadata, Visit(id, scope), PlanVisit(metadata[id], seen), scoped);
  }

  lemma StopAgrees(h: Host, metadata: map<string, Meta>, s: State, r: Progress, id: string, o: nat, ok: bool, scoped: bool)
    requires Agree(metadata, s, r, scoped)
    ensures Together(metadata, End(h, s, id, o, ok), Stop(h, r, ok), scoped)
  {
  }

  lemma PerformAgrees(h: Host, metadata: map<string, Meta>, s: State, r: Progress, scope: Scope, seen: Scope, id: string,
    leaf: Leaf, scoped: bool)
    requires Agree(metadata, s, r, scoped) && id in metadata && (scoped || ReadsScope(leaf) ==> scope == seen)
    ensures Together(metadata, ExecLeaf(h, s, scope, id, leaf), Perform(h, r, metadata[id], seen, leaf), scoped)
  {
    assert LeafScript(h, s.clock, leaf, scope) == LeafScript(h, s.clock, leaf, seen);
    hide LeafScript;
    assert Stands(metadata, Visit(id, scope), PlanVisit(metadata[id], seen), scoped);
  }

  lemma {:induction false} MembersTreeIs(members: seq<Member>)
    ensures MembersTree(members) == MembersOf(members)
  {
    if members != [] { MembersTreeIs(members[..|members| - 1]); }
  }

  lemma {:induction false} BranchesTreeIs(branches: seq<Branch>)
    ensures BranchesTree(branches) == BranchesOf(branches)
  {
    if branches != [] {
      BranchesTreeIs(branches[..|branches| - 1]);
      MembersTreeIs(branches[|branches| - 1].members);
    }
  }

  ghost predicate Context(src: Sources, rank: map<string, nat>, scopes: map<string, Scope>, shown: map<string, Scope>,
    metadata: map<string, Meta>, env: Scope, scoped: bool)
  {
    && Linked(src, rank) && Bound(src, rank, scopes) && Shows(src, rank, shown)
    && Faithful(src, scopes, shown, env, scoped) && Truthful(src, metadata)
  }

  /** Version `v` runs at call site `site`, which `path` leads to and whose frozen scope is `values`. */
  ghost predicate Here(src: Sources, rank: map<string, nat>, scopes: map<string, Scope>, shown: map<string, Scope>,
    v: string, path: seq<string>, site: string, values: Scope)
  {
    At(src, rank, v, site) && SiteOf(src, path) == Some(site) && site in scopes && scopes[site] == values && site in shown
  }

  lemma StepIsDescribed(src: Sources, metadata: map<string, Meta>, path: seq<string>, site: string, id: string)
    requires Truthful(src, metadata) && SiteOf(src, path) == Some(site)
    requires Codec.StepRuntimeId(path, id) in metadata
    ensures metadata[Codec.StepRuntimeId(path, id)] == StepMeta(id, site)
  {
  }

  lemma WorkflowIsDescribed(src: Sources, metadata: map<string, Meta>, path: seq<string>, v: string, site: string)
    requires Truthful(src, metadata) && SiteOf(src, path) == Some(site)
    requires site in src.versions && src.versions[site] == v
    requires Codec.WorkflowRuntimeId(path) in metadata
    ensures metadata[Codec.WorkflowRuntimeId(path)] == WorkflowMeta(v, site)
  {
  }

  /** Following a reference step leads from one call site, with its scopes, to the next. */
  lemma CallLeadsTo(src: Sources, rank: map<string, nat>, scopes: map<string, Scope>, shown: map<string, Scope>,
    metadata: map<string, Meta>, env: Scope, scoped: bool, v: string, path: seq<string>, site: string, values: Scope,
    id: string)
    requires Context(src, rank, scopes, shown, metadata, env, scoped)
    requires Here(src, rank, scopes, shown, v, path, site, values) && Part(src, rank, v, site, {id})
    ensures Resolves(src.g, rank, v, id) && CallKey(site, id) in src.calls
    ensures var t, call := Target(src.g, v, id), src.calls[CallKey(site, id)];
            && Here(src, rank, scopes, shown, t, path + [id, t], call.path, call.values)
            && ScopeOf(call.bindings, src.g.workflows[t].parameters, values) == Some(call.values)
            && BindingsHold(call.values, Schemas(src.g.workflows[t].parameters))
            && CallScope(call.values, shown[site]) == shown[call.path]
  {
    PartCalls(src, rank, v, site, id);
    var t, call := Target(src.g, v, id), src.calls[CallKey(site, id)];
    assert CallBound(src, scopes, site, v, id) && CallShown(src, shown, site, v, id);
    SiteOfCall(src, path, site, id, t);
  }

  lemma {:induction false} StepsMean(h: Host, src: Sources, rank: map<string, nat>, scopes: map<string, Scope>,
    shown: map<string, Scope>, metadata: map<string, Meta>, env: Scope, scoped: bool, s: State, r: Progress,
    v: string, path: seq<string>, site: string, values: Scope, steps: seq<Step>)
    requires Context(src, rank, scopes, shown, metadata, env, scoped)
    requires Here(src, rank, scopes, shown, v, path, site, values)
    requires Part(src, rank, v, site, RefIds(steps)) && Agree(metadata, s, r, scoped)
    requires scoped || StepsRead(steps) ==> shown[site] == values + env
    requires IdsOfAll(StepsTree(src, rank, v, path, site, steps)) <= metadata.Keys
    ensures Together(metadata, ExecAll(h, s, shown[site], StepsTree(src, rank, v, path, site, steps)),
                     MeanSteps(h, src, rank, r, v, site, values, env, steps), scoped)
    decreases rank[v], steps, 0, 0
  {
    if steps != [] {
      var node := StepTree(src, rank, v, path, site, steps[0]);
      var (s1, ok) := Exec(h, s, shown[site], node);
      var (r1, _) := MeanStep(h, src, rank, r, v, site, values, env, steps[0]);
      StepMeans(h, src, rank, scopes, shown, metadata, env, scoped, s, r, v, path, site, values, steps[0]);
      if ok {
        StepsMean(h, src, rank, scopes, shown, metadata, env, scoped, s1, r1, v, path, site, values, steps[1..]);
      }
      hide Context, Here, Agree, StepTree, Exec, MeanStep, Part, RefIdsOf, Ids;
    }
  }

  lemma {:induction false} TimesMean(h: Host, src: Sources, rank: map<string, nat>, scopes: map<string, Scope>,
    shown: map<string, Scope>, metadata: map<string, Meta>, env: Scope, scoped: bool, s: State, r: Progress,
    v: string, path: seq<string>, site: string, values: Scope, steps: seq<Step>, n: nat)
    requires Context(src, rank, scopes, shown, metadata, env, scoped)
    requires Here(src, rank, scopes, shown, v, path, site, values)
    requires Part(src, rank, v, site, RefIds(steps)) && Agree(metadata, s, r, scoped)
    requires scoped || StepsRead(steps) ==> shown[site] == values + env
    requires IdsOfAll(StepsTree(src, rank, v, path, site, steps)) <= metadata.Keys
    ensures Together(metadata, ExecTimes(h, s, shown[site], StepsTree(src, rank, v, path, site, steps), n),
                     MeanTimes(h, src, rank, r, v, site, values, env, steps, n), scoped)
    decreases rank[v], steps, 1, n
  {
    if n > 0 {
      var (s1, ok) := ExecAll(h, s, shown[site], StepsTree(src, rank, v, path, site, steps));
      var (r1, _) := MeanSteps(h, src, rank, r, v, site, values, env, steps);
      StepsMean(h, src, rank, scopes, shown, metadata, env, scoped, s, r, v, path, site, values, steps);
      if ok {
        TimesMean(h, src, rank, scopes, shown, metadata, env, scoped, s1, r1, v, path, site, values, steps, n - 1);
      }
      hide Context, Here, Agree, StepsTree, ExecAll, MeanSteps, Part;
    }
  }

  lemma {:induction false} StepMeans(h: Host, src: Sources, rank: map<string, nat>, scopes: map<string, Scope>,
    shown: map<string, Scope>, metadata: map<string, Meta>, env: Scope, scoped: bool, s: State, r: Progress,
    v: string, path: seq<string>, site: string, values: Scope, step: Step)
    requires Context(src, rank, scopes, shown, metadata, env, scoped)
    requires Here(src, rank, scopes, shown, v, path, site, values)
    requires Part(src, rank, v, site, RefIdsOf(step)) && Agree(metadata, s, r, scoped)
    requires scoped || StepReads(step) ==> shown[site] == values + env
    requires Ids(StepTree(src, rank, v, path, site, step)) <= metadata.Keys
    ensures Together(metadata, Exec(h, s, shown[site], StepTree(src, rank, v, path, site, step)),
                     MeanStep(h, src, rank, r, v, site, values, env, step), scoped)
    decreases rank[v], step, 1, 0
  {
    var id := Codec.StepRuntimeId(path, step.id);
    var node := StepTree(src, rank, v, path, site, step);
    assert id in Ids(node);
    StepIsDescribed(src, metadata, path, site, step.id);
    if step.RepeatStep? {
      RepeatMeans(h, src, rank, scopes, shown, metadata, env, scoped, s, r, v, path, site, values, step);
    } else if step.ReferenceStep? {
      ReferenceMeans(h, src, rank, scopes, shown, metadata, env, scoped, s, r, v, path, site, values, step);
    } else {
      if step.GroupStep? { BranchesTreeIs(step.branches); }
      assert node == LeafNode(id, Performs(step));
      PerformAgrees(h, metadata, s, r, shown[site], values + env, id, Performs(step), scoped);
    }
  }

  lemma {:induction false} RepeatMeans(h: Host, src: Sources, rank: map<string, nat>, scopes: map<string, Scope>,
    shown: map<string, Scope>, metadata: map<string, Meta>, env: Scope, scoped: bool, s: State, r: Progress,
    v: string, path: seq<string>, site: string, values: Scope, step: Step)
    requires step.RepeatStep?
    requires Context(src, rank, scopes, shown, metadata, env, scoped)
    requires Here(src, rank, scopes, shown, v, path, site, values)
    requires Part(src, rank, v, site, RefIdsOf(step)) && Agree(metadata, s, r, scoped)
    requires scoped || StepReads(step) ==> shown[site] == values + env
    requires Ids(StepTree(src, rank, v, path, site, step)) <= metadata.Keys
    ensures Together(metadata, Exec(h, s, shown[site], StepTree(src, rank, v, path, site, step)),
                     MeanStep(h, src, rank, r, v, site, values, env, step), scoped)
    decreases rank[v], step, 0, 0
  {
    var id := Codec.StepRuntimeId(path, step.id);
    var body := StepsTree(src, rank, v, path, site, step.children);
    assert StepTree(src, rank, v, path, site, step) == RepeatNode(id, step.times, body);
    assert Ids(RepeatNode(id, step.times, body)) == {id} + IdsOfAll(body);
    StepIsDescribed(src, metadata, path, site, step.id);
    if step.times >= 0 {
      var (s1, begun) := Begin(h, s, shown[site], id);
      var (r1, _) := Start(h, r, StepMeta(step.id, site), values + env);
      StartAgrees(h, metadata, s, r, shown[site], values + env, id, scoped);
      if begun {
        TimesMean(h, src, rank, scopes, shown, metadata, env, scoped, s1, r1, v, path, site, values,
                  step.children, step.times);
        var (s2, ok) := ExecTimes(h, s1, shown[site], body, step.times);
        var (r2, _) := MeanTimes(h, src, rank, r1, v, site, values, env, step.children, step.times);
        StopAgrees(h, metadata, s2, r2, id, Begun(s, id) + 1, ok, scoped);
      }
      hide Context, Here, Agree, StepsTree, ExecTimes, MeanTimes, Part, Begin, Start, End, Stop;
    }
  }

  lemma {:induction false} ReferenceMeans(h: Host, src: Sources, rank: map<string, nat>, scopes: map<string, Scope>,
    shown: map<string, Scope>, metadata: map<string, Meta>, env: Scope, scoped: bool, s: State, r: Progress,
    v: string, path: seq<string>, site: string, values: Scope, step: Step)
    requires step.ReferenceStep?
    requires Context(src, rank, scopes, shown, metadata, env, scoped)
    requires Here(src, rank, scopes, shown, v, path, site, values)
    requires Part(src, rank, v, site, RefIdsOf(step)) && Agree(metadata, s, r, scoped)
    requires scoped || StepReads(step) ==> shown[site] == values + env
    requires Ids(StepTree(src, rank, v, path, site, step)) <= metadata.Keys
    ensures Together(metadata, Exec(h, s, shown[site], StepTree(src, rank, v, path, site, step)),
                     MeanStep(h, src, rank, r, v, site, values, env, step), scoped)
    decreases rank[v], step, 0, 0
  {
    var id := Codec.StepRuntimeId(path, step.id);
    CallLeadsTo(src, rank, scopes, shown, metadata, env, scoped, v, path, site, values, step.id);
    var t, call := Target(src.g, v, step.id), src.calls[CallKey(site, step.id)];
    var target := WorkflowTree(src, rank, t, path + [step.id, t], call.path);
    var constraints := Schemas(src.g.workflows[t].parameters);
    assert StepTree(src, rank, v, path, site, step) == CallNode(id, target, call.values, constraints);
    assert Ids(CallNode(id, target, call.values, constraints)) == {id} + Ids(target);
    StepIsDescribed(src, metadata, path, site, step.id);
    var (s1, begun) := Begin(h, s, shown[site], id);
    var (r1, _) := Start(h, r, StepMeta(step.id, site), values + env);
    StartAgrees(h, metadata, s, r, shown[site], values + env, id, scoped);
    if begun {
      WorkflowMeans(h, src, rank, scopes, shown, metadata, env, scoped, s1, r1,
                    t, path + [step.id, t], call.path, call.values);
      var (s2, ok) := Exec(h, s1, shown[call.path], target);
      var (r2, _) := MeanWorkflow(h, src, rank, r1, t, call.path, call.values, env);
      assert MeanCall(h, src, rank, r1, v, site, values, env, step) == (r2, ok);
      StopAgrees(h, metadata, s2, r2, id, Begun(s, id) + 1, ok, scoped);
    }
    hide Context, Here, Agree, WorkflowTree, MeanWorkflow, MeanCall, Part, Begin, Start, End, Stop, BindingsHold, CallScope;
  }

  lemma {:induction false} WorkflowMeans(h: Host, src: Sources, rank: map<string, nat>, scopes: map<string, Scope>,
    shown: map<string, Scope>, metadata: map<string, Meta>, env: Scope, scoped: bool, s: State, r: Progress,
    v: string, path: seq<string>, site: string, values: Scope)
    requires Context(src, rank, scopes, shown, metadata, env, scoped)
    requires Here(src, rank, scopes, shown, v, path, site, values)
    requires Agree(metadata, s, r, scoped) && Ids(WorkflowTree(src, rank, v, path, site)) <= metadata.Keys
    ensures Together(metadata, Exec(h, s, shown[site], WorkflowTree(src, rank, v, path, site)),
                     MeanWorkflow(h, src, rank, r, v, site, values, env), scoped)
    decreases rank[v], src.g.workflows[v].steps, 2, 0
  {
    var id, steps := Codec.WorkflowRuntimeId(path), src.g.workflows[v].steps;
    var body := StepsTree(src, rank, v, path, site, steps);
    assert WorkflowTree(src, rank, v, path, site) == WorkflowNode(id, body, None);
    assert Ids(WorkflowNode(id, body, None)) == {id} + IdsOfAll(body);
    WorkflowIsDescribed(src, metadata, path, v, site);
    var (s1, begun) := Begin(h, s, shown[site], id);
    var (r1, _) := Start(h, r, WorkflowMeta(v, site), values + env);
    StartAgrees(h, metadata, s, r, shown[site], values + env, id, scoped);
    if begun {
      StepsMean(h, src, rank, scopes, shown, metadata, env, scoped, s1, r1, v, path, site, values, steps);
      var (s2, ok) := ExecAll(h, s1, shown[site], body);
      var (r2, _) := MeanSteps(h, src, rank, r1, v, site, values, env, steps);
      StopAgrees(h, metadata, s2, r2, id, Begun(s, id) + 1, ok, scoped);
    }
    hide Context, Here, Agree, StepsTree, ExecAll, MeanSteps, Part, Begin, Start, End, Stop;
  }
}

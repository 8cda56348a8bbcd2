/**
 Checking the plan of a snapshot (domain/execution/validation.go): its indexes,
 its references, its dependencies and its budget.
 */
module PlanChecks {
  import opened Wrappers
  import opened Text
  import opened Parameters
  import opened Plan
  import opened Indexes
  import opened Snapshots
  import opened Sealing
  import opened Trees
  import opened References
  import Budget
  import Bindings
  import CallChecks

  // ----- dependencies -----

  lemma {:induction false} DependsAppend(g: Graph, nodes: map<TargetRef, NodeSnapshot>, v: string,
    a: seq<Step>, b: seq<Step>)
    ensures Depends(g, nodes, v, a + b) <==> Depends(g, nodes, v, a) && Depends(g, nodes, v, b)
  {
    if a == [] {
      assert a + b == b;
    } else {
      DependsAppend(g, nodes, v, a[1..], b);
      assert (a + b)[1..] == a[1..] + b && (a + b)[0] == a[0];
      hide DependsStep;
    }
  }

  function Children(step: Step): seq<Step> {
    if step.RepeatStep? then step.children else []
  }

  /** The resolutions left once the given reference steps of `v` have been used up. */
  function Unused(resolutions: map<EdgeKey, Resolution>, v: string, used: multiset<string>): map<EdgeKey, Resolution> {
    map key | key in resolutions && !(key.parent == v && key.stepId in used) :: resolutions[key]
  }

  /**
   The stack still holds the steps that have not been looked at; `done` are the
   reference steps that have been, each used up once.
   */
  ghost predicate Walking(g: Graph, nodes: map<TargetRef, NodeSnapshot>, v: string, steps: seq<Step>,
    start: map<EdgeKey, Resolution>, stack: seq<Step>, done: multiset<string>, left: map<EdgeKey, Resolution>)
  {
    && (Depends(g, nodes, v, steps) <==> Depends(g, nodes, v, stack))
    && RefBag(steps) == RefBag(stack) + done && UniqueRefs(done)
    && left == Unused(start, v, done)
  }

  /** Every target of the step is held by the plan. */
  predicate TargetsHeld(nodes: map<TargetRef, NodeSnapshot>, step: Step) {
    match step
    case ActionStep(_, _, target, _) => target.Some? ==> target.value in nodes
    case WaitStep(_, _, target, _) => target.Some? ==> target.value in nodes
    case ValidationStep(_, target, _) => target in nodes
    case GroupStep(_, branches, _) => forall b | b in branches :: forall m | m in b.members :: m.target in nodes
    case _ => true
  }

  lemma PoppedStack(g: Graph, nodes: map<TargetRef, NodeSnapshot>, v: string, init: seq<Step>, step: Step)
    ensures Depends(g, nodes, v, init + [step]) <==>
      Depends(g, nodes, v, init) && DependsStep(g, nodes, v, step)
    ensures RefBag(init + [step]) == RefBag(init) + RefBagOf(step)
    ensures Depends(g, nodes, v, init + Children(step)) <==>
      Depends(g, nodes, v, init) && Depends(g, nodes, v, Children(step))
    ensures RefBag(init + Children(step)) == RefBag(init) + RefBag(Children(step))
    ensures Size(init + [step]) > Size(init + Children(step))
  {
    DependsAppend(g, nodes, v, init, [step]);
    DependsAppend(g, nodes, v, init, Children(step));
    RefBagAppend(init, [step]);
    RefBagAppend(init, Children(step));
    SizeAppend(init, [step]);
    SizeAppend(init, Children(step));
    assert [step][1..] == [];
    assert RefBag([step]) == RefBagOf(step) && Size([step]) == SizeOf(step);
    assert Depends(g, nodes, v, [step]) <==> DependsStep(g, nodes, v, step);
    assert SizeOf(step) > Size(Children(step));
    hide Depends, RefBag, Size, DependsStep, RefBagOf, SizeOf, Children;
  }

  lemma WalkingReference(g: Graph, nodes: map<TargetRef, NodeSnapshot>, v: string, steps: seq<Step>,
    start: map<EdgeKey, Resolution>, init: seq<Step>, step: Step, done: multiset<string>, left: map<EdgeKey, Resolution>)
    requires step.ReferenceStep? && Walking(g, nodes, v, steps, start, init + [step], done, left)
    requires start.Keys <= g.resolutions.Keys
    requires forall id :: EdgeKey(v, id) in start <==> EdgeKey(v, id) in g.resolutions
    ensures EdgeKey(v, step.id) !in left ==> !(Depends(g, nodes, v, steps) && UniqueRefs(RefBag(steps)))
    ensures !DependsStep(g, nodes, v, step) ==> !Depends(g, nodes, v, steps)
    ensures EdgeKey(v, step.id) in left && DependsStep(g, nodes, v, step) ==>
      Walking(g, nodes, v, steps, start, init, done + multiset{step.id}, left - {EdgeKey(v, step.id)})
  {
    PoppedStack(g, nodes, v, init, step);
    assert RefBagOf(step) == multiset{step.id} && Children(step) == [] && init + [] == init;
    assert EdgeKey(v, step.id) !in left ==> !DependsStep(g, nodes, v, step) || done[step.id] > 0;
    hide Depends, RefBag, DependsStep, RefBagOf, Children;
    assert RefBag(steps)[step.id] >= done[step.id] + 1;
    if EdgeKey(v, step.id) in left {
      assert done[step.id] == 0;
      assert left - {EdgeKey(v, step.id)} == Unused(start, v, done + multiset{step.id});
    }
  }

  lemma WalkingOther(g: Graph, nodes: map<TargetRef, NodeSnapshot>, v: string, steps: seq<Step>,
    start: map<EdgeKey, Resolution>, init: seq<Step>, step: Step, done: multiset<string>, left: map<EdgeKey, Resolution>)
    requires !step.ReferenceStep? && Walking(g, nodes, v, steps, start, init + [step], done, left)
    ensures !TargetsHeld(nodes, step) ==> !Depends(g, nodes, v, steps)
    ensures TargetsHeld(nodes, step) ==>
      Walking(g, nodes, v, steps, start, init + Children(step), done, left)
  {
    PoppedStack(g, nodes, v, init, step);
    assert DependsStep(g, nodes, v, step) <==> TargetsHeld(nodes, step) && Depends(g, nodes, v, Children(step));
    assert RefBagOf(step) == RefBag(Children(step));
    hide Depends, RefBag, Unused, TargetsHeld, DependsStep, RefBagOf;
  }

  /** No workflow declares a parameter twice. */
  ghost predicate NamesUnique(g: Graph) {
    forall v | v in g.workflows :: UniqueNames(g.workflows[v].parameters)
  }

  /** A reference step against its resolution, its target and the parameters of both workflows. */
  method ValidateReference(g: Graph, nodes: map<TargetRef, NodeSnapshot>, v: string, step: Step) returns (ok: bool)
    requires step.ReferenceStep? && NamesUnique(g)
    ensures ok <==> DependsStep(g, nodes, v, step)
  {
    if Blank(step.version) || EdgeKey(v, step.id) !in g.resolutions { return false; }
    var resolution := g.resolutions[EdgeKey(v, step.id)];
    if resolution.fragment != step.fragment || resolution.version != step.version { return false; }
    if step.version !in g.workflows || g.workflows[step.version].fragment != step.fragment { return false; }
    ok := Bindings.ValidateBindings(ParametersOf(g, v), g.workflows[step.version].parameters, step.bindings);
  }

  /** `validateDependencies`: an explicit stack of steps; every reference uses up its resolution. */
  method ValidateDependencies(g: Graph, nodes: map<TargetRef, NodeSnapshot>, v: string, steps: seq<Step>,
    start: map<EdgeKey, Resolution>)
    returns (ok: bool, left: map<EdgeKey, Resolution>)
    requires start.Keys <= g.resolutions.Keys && NamesUnique(g)
    requires forall id :: EdgeKey(v, id) in start <==> EdgeKey(v, id) in g.resolutions
    ensures ok <==> Depends(g, nodes, v, steps) && UniqueRefs(RefBag(steps))
    ensures ok ==> left == Unused(start, v, RefBag(steps))
  {
    var stack := steps;
    left := start;
    ghost var done: multiset<string> := multiset{};
    assert left == Unused(start, v, done);
    hide Depends, RefBag, Size, Unused, Walking, DependsStep, TargetsHeld, NamesUnique;
    WalkingStart(g, nodes, v, steps, start);
    while stack != []
      invariant Walking(g, nodes, v, steps, start, stack, done, left)
      decreases Size(stack)
    {
      var init, step := stack[..|stack| - 1], stack[|stack| - 1];
      assert stack == init + [step];
      PoppedStack(g, nodes, v, init, step);
      if step.ReferenceStep? {
        WalkingReference(g, nodes, v, steps, start, init, step, done, left);
        assert init + Children(step) == init;
        if EdgeKey(v, step.id) !in left { return false, left; }
        var fits := ValidateReference(g, nodes, v, step);
        if !fits { return false, left; }
        left := left - {EdgeKey(v, step.id)};
        done := done + multiset{step.id};
        stack := init;
      } else {
        WalkingOther(g, nodes, v, steps, start, init, step, done, left);
        if !TargetsHeld(nodes, step) { return false, left; }
        stack := init + Children(step);
      }
    }
    WalkingEnd(g, nodes, v, steps, start, done, left);
    return true, left;
  }

  lemma WalkingStart(g: Graph, nodes: map<TargetRef, NodeSnapshot>, v: string, steps: seq<Step>,
    start: map<EdgeKey, Resolution>)
    ensures Walking(g, nodes, v, steps, start, steps, multiset{}, start)
  {
    assert start == Unused(start, v, multiset{});
    hide Depends, RefBag;
  }

  lemma WalkingEnd(g: Graph, nodes: map<TargetRef, NodeSnapshot>, v: string, steps: seq<Step>,
    start: map<EdgeKey, Resolution>, done: multiset<string>, left: map<EdgeKey, Resolution>)
    requires Walking(g, nodes, v, steps, start, [], done, left)
    ensures Depends(g, nodes, v, steps) && UniqueRefs(RefBag(steps)) && left == Unused(start, v, RefBag(steps))
  {
    assert Depends(g, nodes, v, []) && RefBag([]) + done == done;
    hide Depends, RefBag, Unused;
  }

  /** The resolutions that the first `n` workflows do not use. */
  function Leftover(g: Graph, ws: seq<Workflow>, n: nat): map<EdgeKey, Resolution>
    requires n <= |ws|
  {
    map key | key in g.resolutions && !UsedBy(ws, n, key) :: g.resolutions[key]
  }

  predicate UsedBy(ws: seq<Workflow>, n: nat, key: EdgeKey)
    requires n <= |ws|
  {
    exists i :: 0 <= i < n && ws[i].versionId == key.parent && key.stepId in RefBag(ws[i].steps)
  }

  lemma LeftoverNext(g: Graph, ws: seq<Workflow>, n: nat)
    requires n < |ws| && DistinctKeys(ws, WORKFLOW_KEY)
    ensures Leftover(g, ws, n).Keys <= g.resolutions.Keys
    ensures forall id :: EdgeKey(ws[n].versionId, id) in Leftover(g, ws, n)
                    <==> EdgeKey(ws[n].versionId, id) in g.resolutions
    ensures Unused(Leftover(g, ws, n), ws[n].versionId, RefBag(ws[n].steps)) == Leftover(g, ws, n + 1)
  {
    forall i | 0 <= i < n
      ensures ws[i].versionId != ws[n].versionId
    {
      assert WORKFLOW_KEY(ws[i]) != WORKFLOW_KEY(ws[n]);
    }
    forall key
      ensures UsedBy(ws, n + 1, key) <==>
        UsedBy(ws, n, key) || (key.parent == ws[n].versionId && key.stepId in RefBag(ws[n].steps))
    {
      if UsedBy(ws, n, key) {
        var i :| 0 <= i < n && ws[i].versionId == key.parent && key.stepId in RefBag(ws[i].steps);
        assert 0 <= i < n + 1;
      }
    }
    hide RefBag;
  }

  predicate DependenciesHold(g: Graph, nodes: map<TargetRef, NodeSnapshot>, w: Workflow) {
    Depends(g, nodes, w.versionId, w.steps)
  }

  ghost predicate WorkflowDepends(g: Graph, nodes: map<TargetRef, NodeSnapshot>, w: Workflow) {
    DependenciesHold(g, nodes, w) && UniqueRefs(RefBag(w.steps))
  }

  ghost predicate AllDepend(g: Graph, nodes: map<TargetRef, NodeSnapshot>, ws: seq<Workflow>) {
    && (forall w | w in ws :: WorkflowDepends(g, nodes, w))
    && forall key | key in g.resolutions :: UsedBy(ws, |ws|, key)
  }

  /** All workflows, using up the resolutions together; nothing may be left over. */
  method ValidateAllDependencies(g: Graph, nodes: map<TargetRef, NodeSnapshot>, ws: seq<Workflow>) returns (ok: bool)
    requires DistinctKeys(ws, WORKFLOW_KEY) && NamesUnique(g)
    ensures ok <==> AllDepend(g, nodes, ws)
  {
    var left := g.resolutions;
    assert left == Leftover(g, ws, 0);
    hide Leftover, UsedBy, RefBag, Depends, DistinctKeys, UniqueRefs, NamesUnique;
    for n := 0 to |ws|
      invariant forall i | 0 <= i < n :: WorkflowDepends(g, nodes, ws[i])
      invariant left == Leftover(g, ws, n)
    {
      assert ws[n] in ws;
      LeftoverNext(g, ws, n);
      ok, left := ValidateDependencies(g, nodes, ws[n].versionId, ws[n].steps, left);
      if !ok { return; }
      assert WorkflowDepends(g, nodes, ws[n]);
    }
    LeftoverEmpty(g, ws);
    ok := left == map[];
  }

  lemma LeftoverEmpty(g: Graph, ws: seq<Workflow>)
    ensures Leftover(g, ws, |ws|) == map[] <==> forall key | key in g.resolutions :: UsedBy(ws, |ws|, key)
  {
    if Leftover(g, ws, |ws|) == map[] {
      forall key | key in g.resolutions
        ensures UsedBy(ws, |ws|, key)
      {
        assert key !in Leftover(g, ws, |ws|);
      }
    }
    hide UsedBy;
  }

  // ----- elements -----

  predicate OwnersAgree(nodes: seq<NodeSnapshot>, n: nat)
    requires n <= |nodes|
  {
    forall i, j | 0 <= i < n && 0 <= j < n && nodes[i].version == nodes[j].version :: nodes[i].element == nodes[j].element
  }

  /** Every element is valid, and no version id belongs to two elements. */
  method ValidateNodes(nodes: seq<NodeSnapshot>) returns (ok: bool)
    ensures ok <==> (forall n | n in nodes :: n.valid) && OwnersAgree(nodes, |nodes|)
  {
    var owners: map<string, string> := map[];
    for n := 0 to |nodes|
      invariant forall i | 0 <= i < n :: nodes[i].valid
      invariant OwnersAgree(nodes, n)
      invariant forall i | 0 <= i < n :: nodes[i].version in owners && owners[nodes[i].version] == nodes[i].element
      invariant forall v | v in owners :: exists i :: 0 <= i < n && nodes[i].version == v && nodes[i].element == owners[v]
    {
      assert nodes[n] in nodes;
      if !nodes[n].valid { return false; }
      if nodes[n].version in owners && owners[nodes[n].version] != nodes[n].element { return false; }
      owners := owners[nodes[n].version := nodes[n].element];
    }
    return true;
  }

  lemma OwnersAreUnique(s: Snapshot)
    requires DistinctKeys(s.nodes, NODE_KEY)
    ensures OwnersUnique(NodesOf(s)) <==> OwnersAgree(s.nodes, |s.nodes|)
  {
    var nodes := NodesOf(s);
    if OwnersAgree(s.nodes, |s.nodes|) {
      forall a, b | a in nodes && b in nodes && a.version == b.version
        ensures a.element == b.element
      {
        IndexHolds(s.nodes, NODE_KEY, a);
        IndexHolds(s.nodes, NODE_KEY, b);
        var i :| 0 <= i < |s.nodes| && NODE_KEY(s.nodes[i]) == a;
        var j :| 0 <= j < |s.nodes| && NODE_KEY(s.nodes[j]) == b;
        assert s.nodes[i].version == s.nodes[j].version;
      }
    }
    if OwnersUnique(nodes) {
      forall i, j | 0 <= i < |s.nodes| && 0 <= j < |s.nodes| && s.nodes[i].version == s.nodes[j].version
        ensures s.nodes[i].element == s.nodes[j].element
      {
        IndexGives(s.nodes, NODE_KEY, i);
        IndexGives(s.nodes, NODE_KEY, j);
        assert NODE_KEY(s.nodes[i]) in nodes && NODE_KEY(s.nodes[j]) in nodes;
      }
    }
  }

  // ----- the rank of a resolved plan -----

  /** Versions a plan does not hold can be left out of a rank. */
  function Held(g: Graph, rank: map<string, nat>): map<string, nat> {
    map v | v in rank && v in g.workflows :: rank[v]
  }

  lemma {:induction false} DependsResolves(g: Graph, nodes: map<TargetRef, NodeSnapshot>, v: string,
    steps: seq<Step>, id: string)
    requires Depends(g, nodes, v, steps) && id in RefIds(steps)
    ensures EdgeKey(v, id) in g.resolutions && Target(g, v, id) in g.workflows
    decreases steps, 0
  {
    if id in RefIdsOf(steps[0]) {
      if steps[0].RepeatStep? { DependsResolves(g, nodes, v, steps[0].children, id); }
    } else {
      DependsResolves(g, nodes, v, steps[1..], id);
    }
  }

  /** With every reference resolved inside the plan, an acyclic graph is closed. */
  lemma AcyclicIsClosed(g: Graph, nodes: map<TargetRef, NodeSnapshot>, roots: seq<string>) returns (rank: map<string, nat>)
    requires Acyclic(g, roots) && (forall r | r in roots :: r in g.workflows)
    requires forall v | v in g.workflows :: Depends(g, nodes, v, g.workflows[v].steps)
    ensures Closed(g, rank) && forall r | r in roots :: r in rank
  {
    var wide: map<string, nat> :| Ranked(g, wide) && forall v | v in roots :: v in wide;
    rank := Held(g, wide);
    forall v, id | v in rank && id in RefIds(g.workflows[v].steps)
      ensures Resolves(g, rank, v, id)
    {
      DependsResolves(g, nodes, v, g.workflows[v].steps, id);
      assert Target(g, v, id) in Successors(g, v);
    }
    forall v | v in rank
      ensures ResolvedIn(g, rank, v, RefIds(g.workflows[v].steps))
    {
    }
  }

  lemma ClosedIsAcyclic(g: Graph, roots: seq<string>, rank: map<string, nat>)
    requires Closed(g, rank) && forall r | r in roots :: r in rank
    ensures Acyclic(g, roots)
  {
    forall v, w | v in rank && w in Successors(g, v)
      ensures w in rank && rank[w] < rank[v]
    {
      var id :| id in RefIds(StepsOf(g, v)) && EdgeKey(v, id) in g.resolutions && Target(g, v, id) == w;
      assert Resolves(g, rank, v, id);
    }
    assert Ranked(g, rank);
  }

  /** The price of a version does not depend on the rank it is computed along. */
  lemma {:induction false} PriceIgnoresRank(g: Graph, a: map<string, nat>, b: map<string, nat>, v: string, steps: seq<Step>)
    requires Within(g, a, v, steps) && Within(g, b, v, steps)
    ensures Budget.StepsPrice(g, a, v, steps) == Budget.StepsPrice(g, b, v, steps)
    decreases a[v], steps, 0
  {
    if steps != [] {
      PriceIgnoresRankStep(g, a, b, v, steps[0]);
      PriceIgnoresRank(g, a, b, v, steps[1..]);
    }
  }

  lemma {:induction false} PriceIgnoresRankStep(g: Graph, a: map<string, nat>, b: map<string, nat>, v: string, step: Step)
    requires StepWithin(g, a, v, step) && StepWithin(g, b, v, step)
    ensures Budget.StepPrice(g, a, v, step) == Budget.StepPrice(g, b, v, step)
    decreases a[v], step, 1
  {
    match step {
      case RepeatStep(_, _, children) => PriceIgnoresRank(g, a, b, v, children);
      case ReferenceStep(id, _, _, _) =>
        assert Resolves(g, a, v, id) && Resolves(g, b, v, id);
        var t := Target(g, v, id);
        PriceIgnoresRank(g, a, b, t, g.workflows[t].steps);
      case _ =>
    }
  }

  lemma {:induction false} TotalIgnoresRank(g: Graph, a: map<string, nat>, b: map<string, nat>, roots: seq<string>)
    requires Closed(g, a) && Closed(g, b) && forall r | r in roots :: r in a && r in b
    ensures Budget.TotalPrice(g, a, roots) == Budget.TotalPrice(g, b, roots)
  {
    if roots != [] {
      PriceIgnoresRank(g, a, b, roots[0], g.workflows[roots[0]].steps);
      TotalIgnoresRank(g, a, b, roots[1..]);
    }
  }

  // ----- sealing -----

  datatype Judgement = InOrder | OutOfOrder | Refused(limit: Verdict)

  predicate WorkflowShaped(w: Workflow) {
    (w.id == "" || w.id == w.fragment) && Shaped(w.steps) && DefinitionsOk(w.parameters)
  }

  ghost predicate Plannable(s: Snapshot) {
    exists rank :: PlanOk(s, rank)
  }

  /** The parts of a plan that are checked before its references are searched. */
  ghost predicate Prepared(s: Snapshot) {
    && DistinctKeys(s.entries, ENTRY_KEY) && DistinctKeys(s.workflows, WORKFLOW_KEY)
    && DistinctKeys(s.nodes, NODE_KEY) && DistinctKeys(s.references, REFERENCE_KEY)
    && (forall n | n in s.nodes :: n.valid) && OwnersAgree(s.nodes, |s.nodes|)
    && (forall w | w in s.workflows :: WorkflowShaped(w))
    && forall e | e in s.entries :: EntryOk(GraphOf(s), e)
  }

  lemma StrayIsUnused(s: Snapshot)
    requires DistinctKeys(s.workflows, WORKFLOW_KEY)
    ensures NoStrayResolution(GraphOf(s)) <==>
      forall key | key in GraphOf(s).resolutions :: UsedBy(s.workflows, |s.workflows|, key)
  {
    var g, ws := GraphOf(s), s.workflows;
    forall key | key in g.resolutions
      ensures UsedBy(ws, |ws|, key) <==>
        key.parent in g.workflows && key.stepId in RefIds(g.workflows[key.parent].steps)
    {
      if UsedBy(ws, |ws|, key) {
        var i :| 0 <= i < |ws| && ws[i].versionId == key.parent && key.stepId in RefBag(ws[i].steps);
        IndexGives(ws, WORKFLOW_KEY, i);
        RefBagHolds(ws[i].steps, key.stepId);
      }
      if key.parent in g.workflows && key.stepId in RefIds(g.workflows[key.parent].steps) {
        WorkflowGives(s, key.parent);
        var i :| 0 <= i < |ws| && ws[i] == g.workflows[key.parent];
        RefBagHolds(ws[i].steps, key.stepId);
      }
    }
  }

  /** What any plan that is in order satisfies, whatever it is ranked by. */
  lemma PlannableNeeds(s: Snapshot)
    requires Plannable(s)
    ensures Prepared(s) && Acyclic(GraphOf(s), Roots(s)) && AllDepend(GraphOf(s), NodesOf(s), s.workflows)
  {
    var rank :| PlanOk(s, rank);
    OwnersAreUnique(s);
    StrayIsUnused(s);
    ClosedIsAcyclic(GraphOf(s), Roots(s), rank);
    forall w | w in s.workflows
      ensures WorkflowShaped(w) && WorkflowDepends(GraphOf(s), NodesOf(s), w)
    {
    }
    hide Shaped, UniqueNames, Depends, RefBag, UsedBy, OwnersAgree, OwnersUnique, EntryOk, Closed, Acyclic;
  }

  lemma PlannableIsAffordable(s: Snapshot, rank: map<string, nat>)
    requires Plannable(s) && Closed(GraphOf(s), rank) && forall v | v in Roots(s) :: v in rank
    ensures !Budget.TotalPrice(GraphOf(s), rank, Roots(s)).Over()
  {
    var other :| PlanOk(s, other);
    TotalIgnoresRank(GraphOf(s), rank, other, Roots(s));
  }

  lemma NoCycleInPlan(s: Snapshot, v: string)
    requires Acyclic(GraphOf(s), Roots(s))
    ensures !OnReachableCycle(GraphOf(s), Roots(s), v)
  {
    var g, roots := GraphOf(s), Roots(s);
    if Reachable(g, roots, v) {
      forall p | WalkBetween(g, p, v, v)
        ensures |p| == 1
      {
        AcyclicHasNoCycle(g, roots, v, p);
      }
    }
  }

  lemma WorkflowsDepend(s: Snapshot)
    requires Prepared(s) && AllDepend(GraphOf(s), NodesOf(s), s.workflows)
    ensures forall v | v in GraphOf(s).workflows :: Depends(GraphOf(s), NodesOf(s), v, GraphOf(s).workflows[v].steps)
    ensures forall v | v in GraphOf(s).workflows :: Shaped(GraphOf(s).workflows[v].steps)
    ensures forall r | r in Roots(s) :: r in GraphOf(s).workflows
  {
    forall v | v in GraphOf(s).workflows
      ensures Depends(GraphOf(s), NodesOf(s), v, GraphOf(s).workflows[v].steps)
      ensures Shaped(GraphOf(s).workflows[v].steps)
    {
      WorkflowGives(s, v);
      assert WorkflowDepends(GraphOf(s), NodesOf(s), GraphOf(s).workflows[v]);
    }
    forall r | r in Roots(s)
      ensures r in GraphOf(s).workflows
    {
      var i :| 0 <= i < |Roots(s)| && Roots(s)[i] == r;
      assert EntryOk(GraphOf(s), s.entries[i]);
    }
    hide Shaped, Depends, RefBag, UsedBy, OwnersAgree;
  }

  lemma PlanAssembled(s: Snapshot, rank: map<string, nat>)
    requires Prepared(s) && AllDepend(GraphOf(s), NodesOf(s), s.workflows)
    requires Closed(GraphOf(s), rank) && forall v | v in Roots(s) :: v in rank
    requires !Budget.TotalPrice(GraphOf(s), rank, Roots(s)).Over()
    ensures PlanOk(s, rank)
  {
    OwnersAreUnique(s);
    StrayIsUnused(s);
    forall w | w in s.workflows
      ensures WorkflowOk(w) && Depends(GraphOf(s), NodesOf(s), w.versionId, w.steps)
    {
      assert WorkflowShaped(w) && WorkflowDepends(GraphOf(s), NodesOf(s), w);
    }
    hide Shaped, UniqueNames, Depends, RefBag, UsedBy, OwnersAgree, OwnersUnique, EntryOk, Closed;
  }

  /** The checks that need no reference graph. */
  method Prepare(s: Snapshot) returns (r: Option<(Graph, map<TargetRef, NodeSnapshot>)>)
    ensures r.Some? <==> Prepared(s)
    ensures r.Some? ==> r.value == (GraphOf(s), NodesOf(s))
  {
    hide EntryOk, WorkflowShaped, OwnersAgree;
    var entries := BuildIndex(s.entries, ENTRY_KEY);
    if entries.None? { return None; }
    var workflows := BuildIndex(s.workflows, WORKFLOW_KEY);
    if workflows.None? { return None; }
    var g := Graph(workflows.value, map[]);
    if exists w :: w in s.workflows && !WorkflowShaped(w) { return None; }
    var references := BuildIndex(s.references, REFERENCE_KEY);
    if references.None? { return None; }
    g := Graph(workflows.value, references.value);
    if exists e :: e in s.entries && !EntryOk(g, e) { return None; }
    var nodesOk := ValidateNodes(s.nodes);
    if !nodesOk { return None; }
    var nodes := BuildIndex(s.nodes, NODE_KEY);
    if nodes.None? { return None; }
    return Some((g, nodes.value));
  }

  /**
   `PlanSnapshot.validateShape`. An accepted plan is in order; a plan called
   out of order cannot be ranked as one in order at all; and only a limit of the
   reference search, really exceeded, refuses a plan otherwise. By
   `References.LimitsExclude` an accepted plan exceeds neither size limit.
   */
  method ValidatePlan(s: Snapshot) returns (r: Judgement, ghost rank: map<string, nat>)
    ensures r.InOrder? ==> PlanOk(s, rank) && WithinLimits(GraphOf(s), Roots(s))
    ensures r.OutOfOrder? ==> !Plannable(s)
    ensures r.Refused? ==> Justified(GraphOf(s), Roots(s), r.limit) && !r.limit.Accepted? && !r.limit.Cycle?
  {
    rank := map[];
    if Plannable(s) { PlannableNeeds(s); }
    hide Plannable, Prepared, NamesUnique, Acyclic, AllDepend, PlanOk, Closed, Depends, Shaped, LongChain, ManyReachable, ManyEdges, WithinLimits;
    var prepared := Prepare(s);
    if prepared.None? { return OutOfOrder, rank; }
    var (g, nodes) := prepared.value;
    var verdict := ValidateReachable(Roots(s), g);
    if verdict.Cycle? {
      if Acyclic(g, Roots(s)) { NoCycleInPlan(s, verdict.version); }
      return OutOfOrder, rank;
    }
    if !verdict.Accepted? { return Refused(verdict), rank; }
    assert Acyclic(g, Roots(s)) && WithinLimits(g, Roots(s));
    PreparedKeys(s);
    var dependencies := ValidateAllDependencies(g, nodes, s.workflows);
    if !dependencies { return OutOfOrder, rank; }
    WorkflowsDepend(s);
    rank := AcyclicIsClosed(g, nodes, Roots(s));
    ClosedVersions(g, rank);
    var affordable := Budget.ValidateBudget(Roots(s), g, rank);
    if !affordable {
      if Plannable(s) { PlannableIsAffordable(s, rank); }
      return OutOfOrder, rank;
    }
    PlanAssembled(s, rank);
    return InOrder, rank;
  }

  lemma PreparedKeys(s: Snapshot)
    requires Prepared(s)
    ensures DistinctKeys(s.workflows, WORKFLOW_KEY) && NamesUnique(GraphOf(s))
  {
    forall v | v in GraphOf(s).workflows
      ensures UniqueNames(GraphOf(s).workflows[v].parameters)
    {
      WorkflowGives(s, v);
    }
  }

  lemma ClosedVersions(g: Graph, rank: map<string, nat>)
    requires Closed(g, rank)
    ensures forall v | v in rank :: v in g.workflows
  {
  }

  /** Sealing a snapshot: its plan first, then its call sites. */
  method Seal(s: Snapshot) returns (r: Judgement, ghost rank: map<string, nat>)
    ensures r.InOrder? ==> Sealed(s, rank) && WithinLimits(GraphOf(s), Roots(s))
    ensures r.OutOfOrder? ==> forall other :: !Sealed(s, other)
    ensures r.Refused? ==> Justified(GraphOf(s), Roots(s), r.limit) && !r.limit.Accepted? && !r.limit.Cycle?
  {
    hide PlanOk, CallsOk, Justified, WithinLimits;
    r, rank := ValidatePlan(s);
    if !r.InOrder? { return; }
    var entries := BuildIndex(s.entries, ENTRY_KEY);
    SealedEntries(s, rank);
    if entries.None? { return OutOfOrder, rank; }
    var workflows := BuildIndex(s.workflows, WORKFLOW_KEY);
    var references := BuildIndex(s.references, REFERENCE_KEY);
    if workflows.None? || references.None? { return OutOfOrder, rank; }
    var calls := CallChecks.ValidateCalls(s, entries.value, Graph(workflows.value, references.value));
    if !calls { r := OutOfOrder; }
  }

  lemma SealedEntries(s: Snapshot, rank: map<string, nat>)
    requires PlanOk(s, rank)
    ensures DistinctKeys(s.entries, ENTRY_KEY) && DistinctKeys(s.workflows, WORKFLOW_KEY)
    ensures DistinctKeys(s.references, REFERENCE_KEY)
  {
  }
}

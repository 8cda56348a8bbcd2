/**
 What compilation produces (application/engine/compiler.go): the executable tree
 of a resolved plan, its size, the length of its reference chains, and the
 metadata that maps every runtime identifier back to its call site.
 */
module Trees {
  import opened Wrappers
  import opened Parameters
  import opened Plan
  import opened Phases
  import opened Execution
  import opened Snapshots
  import Codec

  const MAX_DEPTH: nat := 32

  /** Everything compilation reads from a sealed snapshot. */
  datatype Sources = Sources(
    g: Graph, nodes: map<TargetRef, NodeSnapshot>, calls: map<CallKey, Invocation>, versions: map<string, string>)

  // ----- what a sealed snapshot provides -----

  predicate TargetKnown(nodes: map<TargetRef, NodeSnapshot>, target: TargetRef) {
    target in nodes && nodes[target].valid
  }

  /** A step's targets are held by the plan, and its reference agrees with the resolution. */
  predicate StepLinked(src: Sources, v: string, step: Step) {
    match step
    case ActionStep(_, _, target, _) => target.Some? ==> TargetKnown(src.nodes, target.value)
    case WaitStep(_, wait, target, _) =>
      wait.SeeksElement() ==> target.Some? && TargetKnown(src.nodes, target.value)
    case ValidationStep(_, target, _) => TargetKnown(src.nodes, target)
    case GroupStep(_, branches, _) =>
      forall b | b in branches :: forall m | m in b.members :: TargetKnown(src.nodes, m.target)
    case RepeatStep(_, _, children) => StepsLinked(src, v, children)
    case ReferenceStep(id, fragment, _, _) =>
      && EdgeKey(v, id) in src.g.resolutions
      && src.g.resolutions[EdgeKey(v, id)].fragment == fragment
      && Target(src.g, v, id) in src.g.workflows
      && FragmentOf(src.g.workflows[Target(src.g, v, id)]) == fragment
  }

  predicate StepsLinked(src: Sources, v: string, steps: seq<Step>) {
    steps == [] || (StepLinked(src, v, steps[0]) && StepsLinked(src, v, steps[1..]))
  }

  function FragmentOf(w: Workflow): string {
    if w.id != "" then w.id else w.fragment
  }

  function Schemas(definitions: seq<Definition>): map<string, Constraint> {
    if definitions == [] then map[]
    else Schemas(definitions[..|definitions| - 1])[
      definitions[|definitions| - 1].name := definitions[|definitions| - 1].Schema()]
  }

  /** The one call a reference step makes at a call site. */
  ghost predicate CallLinked(src: Sources, scope: string, v: string, id: string) {
    && CallKey(scope, id) in src.calls
    && EdgeKey(v, id) in src.g.resolutions
    && var call := src.calls[CallKey(scope, id)];
       && call.version == Target(src.g, v, id)
       && call.path in src.versions && src.versions[call.path] == call.version
       && call.version in src.g.workflows
       && BindingsHold(call.values, Schemas(src.g.workflows[call.version].parameters))
  }

  /** A version id of an element is never shared by two elements. */
  ghost predicate OwnersUnique(nodes: map<TargetRef, NodeSnapshot>) {
    forall a, b | a in nodes && b in nodes && a.version == b.version :: a.element == b.element
  }

  ghost predicate Linked(src: Sources, rank: map<string, nat>) {
    && Closed(src.g, rank)
    && OwnersUnique(src.nodes)
    && (forall v | v in rank :: StepsLinked(src, v, src.g.workflows[v].steps))
    && (forall p, id | p in src.versions && src.versions[p] in rank
          && id in RefIds(src.g.workflows[src.versions[p]].steps) :: CallLinked(src, p, src.versions[p], id))
  }

  /** Call site `scope` runs version `v`. */
  ghost predicate At(src: Sources, rank: map<string, nat>, v: string, scope: string) {
    && Linked(src, rank) && v in rank
    && scope in src.versions && src.versions[scope] == v
  }

  /** `ids` are reference steps of version `v`, which runs at call site `scope`. */
  ghost predicate Part(src: Sources, rank: map<string, nat>, v: string, scope: string, ids: set<string>) {
    At(src, rank, v, scope) && ids <= RefIds(src.g.workflows[v].steps)
  }

  lemma PartIsWithin(src: Sources, rank: map<string, nat>, v: string, scope: string, ids: set<string>)
    requires Part(src, rank, v, scope, ids)
    ensures ResolvedIn(src.g, rank, v, ids)
    ensures forall id | id in ids :: CallLinked(src, scope, v, id)
  {
    hide CallLinked;
    assert ResolvedIn(src.g, rank, v, RefIds(src.g.workflows[v].steps));
  }

  /** A reference step leads to a call site that runs the version it resolves to. */
  lemma PartCalls(src: Sources, rank: map<string, nat>, v: string, scope: string, id: string)
    requires Part(src, rank, v, scope, {id})
    ensures Resolves(src.g, rank, v, id) && CallLinked(src, scope, v, id)
    ensures At(src, rank, Target(src.g, v, id), src.calls[CallKey(scope, id)].path)
  {
    PartIsWithin(src, rank, v, scope, {id});
    assert Resolves(src.g, rank, v, id);
    hide Linked;
    assert Closed(src.g, rank) && Target(src.g, v, id) in rank;
  }

  // ----- the tree -----

  function MembersTree(members: seq<Member>): seq<GroupMember> {
    if members == [] then [] else
    var last := members[|members| - 1];
    MembersTree(members[..|members| - 1]) + [GroupMember(last.id, last.target)]
  }

  function BranchesTree(branches: seq<Branch>): seq<GroupBranch> {
    if branches == [] then [] else
    var last := branches[|branches| - 1];
    BranchesTree(branches[..|branches| - 1]) + [GroupBranch(last.id, MembersTree(last.members))]
  }

  /** A wait keeps its target only when its kind looks for an element. */
  function WaitTarget(wait: WaitKind, target: Option<TargetRef>): Option<TargetRef> {
    match wait
    case Sleep => None
    case NetworkIdle => None
    case _ => target
  }

  ghost function StepsTree(src: Sources, rank: map<string, nat>, v: string, path: seq<string>, scope: string,
    steps: seq<Step>): seq<Node>
    requires Part(src, rank, v, scope, RefIds(steps))
    decreases rank[v], steps, 0
  {
    if steps == [] then []
    else [StepTree(src, rank, v, path, scope, steps[0])] + StepsTree(src, rank, v, path, scope, steps[1..])
  }

  ghost function StepTree(src: Sources, rank: map<string, nat>, v: string, path: seq<string>, scope: string,
    step: Step): Node
    requires Part(src, rank, v, scope, RefIdsOf(step))
    decreases rank[v], step, 1
  {
    var id := Codec.StepRuntimeId(path, step.id);
    match step
    case ActionStep(_, action, target, optional) => LeafNode(id, ActionLeaf(action, target, optional))
    case WaitStep(_, wait, target, ms) => LeafNode(id, WaitLeaf(wait, WaitTarget(wait, target), ms))
    case ValidationStep(_, target, ms) => LeafNode(id, ValidationLeaf(target, ms))
    case GroupStep(_, branches, ms) => LeafNode(id, GroupLeaf(BranchesTree(branches), ms))
    case RepeatStep(_, times, children) =>
      RepeatNode(id, times, StepsTree(src, rank, v, path, scope, children))
    case ReferenceStep(stepId, _, _, _) =>
      PartCalls(src, rank, v, scope, stepId);
      var t := Target(src.g, v, stepId);
      var call := src.calls[CallKey(scope, stepId)];
      CallNode(id, WorkflowTree(src, rank, t, path + [stepId, t], call.path),
        call.values, Schemas(src.g.workflows[t].parameters))
  }

  ghost function WorkflowTree(src: Sources, rank: map<string, nat>, v: string, path: seq<string>, scope: string): Node
    requires At(src, rank, v, scope)
    decreases rank[v], src.g.workflows[v].steps, 1
  {
    WorkflowNode(Codec.WorkflowRuntimeId(path),
      StepsTree(src, rank, v, path, scope, src.g.workflows[v].steps), None)
  }

  // ----- sizes -----

  function Max(a: nat, b: nat): nat {
    if a < b then b else a
  }

  /** Versions on the longest chain of references that starts below these steps. */
  ghost function ChainSteps(g: Graph, rank: map<string, nat>, v: string, steps: seq<Step>): nat
    requires Within(g, rank, v, steps)
    decreases rank[v], steps, 0
  {
    if steps == [] then 0 else Max(ChainStep(g, rank, v, steps[0]), ChainSteps(g, rank, v, steps[1..]))
  }

  ghost function ChainStep(g: Graph, rank: map<string, nat>, v: string, step: Step): nat
    requires StepWithin(g, rank, v, step)
    decreases rank[v], step, 1
  {
    match step
    case RepeatStep(_, _, children) => ChainSteps(g, rank, v, children)
    case ReferenceStep(id, _, _, _) =>
      assert Resolves(g, rank, v, id);
      Chain(g, rank, Target(g, v, id))
    case _ => 0
  }

  ghost function Chain(g: Graph, rank: map<string, nat>, v: string): nat
    requires Closed(g, rank) && v in rank
    decreases rank[v], g.workflows[v].steps, 1
  {
    1 + ChainSteps(g, rank, v, g.workflows[v].steps)
  }

  function MemberCount(branches: seq<Branch>): nat {
    if branches == [] then 0
    else MemberCount(branches[..|branches| - 1]) + |branches[|branches| - 1].members|
  }

  /** Nodes the compiler counts for these steps: repeat bodies once, calls in full. */
  ghost function CountSteps(g: Graph, rank: map<string, nat>, v: string, steps: seq<Step>): nat
    requires Within(g, rank, v, steps)
    decreases rank[v], steps, 0
  {
    if steps == [] then 0 else CountStep(g, rank, v, steps[0]) + CountSteps(g, rank, v, steps[1..])
  }

  ghost function CountStep(g: Graph, rank: map<string, nat>, v: string, step: Step): nat
    requires StepWithin(g, rank, v, step)
    decreases rank[v], step, 1
  {
    match step
    case GroupStep(_, branches, _) => 1 + MemberCount(branches)
    case RepeatStep(_, _, children) => 1 + CountSteps(g, rank, v, children)
    case ReferenceStep(id, _, _, _) =>
      assert Resolves(g, rank, v, id);
      1 + Count(g, rank, Target(g, v, id))
    case _ => 1
  }

  ghost function Count(g: Graph, rank: map<string, nat>, v: string): nat
    requires Closed(g, rank) && v in rank
    decreases rank[v], g.workflows[v].steps, 1
  {
    CountSteps(g, rank, v, g.workflows[v].steps)
  }

  // ----- metadata -----

  /** What a runtime identifier stands for: a step, or the container of a call. */
  datatype Meta = StepMeta(stepId: string, callPath: string) | WorkflowMeta(version: string, callPath: string)

  /** The call site a list of runtime components leads to. */
  function SiteOf(src: Sources, path: seq<string>): Option<string> {
    if path == [] then None
    else if |path| == 1 then Some(path[0])
    else match SiteOf(src, path[..|path| - 2])
      case None => None
      case Some(p) =>
        var key := CallKey(p, path[|path| - 2]);
        if key in src.calls then Some(src.calls[key].path) else None
  }

  lemma SiteOfCall(src: Sources, path: seq<string>, scope: string, id: string, t: string)
    requires SiteOf(src, path) == Some(scope) && CallKey(scope, id) in src.calls
    ensures SiteOf(src, path + [id, t]) == Some(src.calls[CallKey(scope, id)].path)
  {
    var longer := path + [id, t];
    assert longer[..|longer| - 2] == path && longer[|longer| - 2] == id;
  }

  /** Every identifier in the metadata is mapped to the step or call it was made from. */
  ghost predicate Truthful(src: Sources, metadata: map<string, Meta>) {
    && (forall path, id | SiteOf(src, path).Some? && Codec.StepRuntimeId(path, id) in metadata ::
          metadata[Codec.StepRuntimeId(path, id)] == StepMeta(id, SiteOf(src, path).value))
    && (forall path | SiteOf(src, path).Some? && Codec.WorkflowRuntimeId(path) in metadata ::
          var site := SiteOf(src, path).value;
          site in src.versions
            && metadata[Codec.WorkflowRuntimeId(path)] == WorkflowMeta(src.versions[site], site))
  }

  lemma TruthfulStep(src: Sources, metadata: map<string, Meta>, path: seq<string>, id: string, scope: string)
    requires Truthful(src, metadata) && SiteOf(src, path) == Some(scope)
    ensures Truthful(src, metadata[Codec.StepRuntimeId(path, id) := StepMeta(id, scope)])
  {
    hide Codec.StepRuntimeId, Codec.WorkflowRuntimeId;
    var key := Codec.StepRuntimeId(path, id);
    var metadata' := metadata[key := StepMeta(id, scope)];
    forall p, x | SiteOf(src, p).Some? && Codec.StepRuntimeId(p, x) in metadata'
      ensures metadata'[Codec.StepRuntimeId(p, x)] == StepMeta(x, SiteOf(src, p).value)
    {
      if Codec.StepRuntimeId(p, x) == key { Codec.StepRuntimeIdInjective(p, x, path, id); }
    }
    forall p | SiteOf(src, p).Some? && Codec.WorkflowRuntimeId(p) in metadata'
      ensures var site := SiteOf(src, p).value;
              site in src.versions
                && metadata'[Codec.WorkflowRuntimeId(p)] == WorkflowMeta(src.versions[site], site)
    {
      Codec.StepIsNotWorkflow(path, id, p);
    }
  }

  lemma TruthfulWorkflow(src: Sources, metadata: map<string, Meta>, path: seq<string>, v: string, scope: string)
    requires Truthful(src, metadata) && SiteOf(src, path) == Some(scope)
    requires scope in src.versions && src.versions[scope] == v
    ensures Truthful(src, metadata[Codec.WorkflowRuntimeId(path) := WorkflowMeta(v, scope)])
  {
    hide Codec.StepRuntimeId, Codec.WorkflowRuntimeId;
    var key := Codec.WorkflowRuntimeId(path);
    var metadata' := metadata[key := WorkflowMeta(v, scope)];
    forall p, x | SiteOf(src, p).Some? && Codec.StepRuntimeId(p, x) in metadata'
      ensures metadata'[Codec.StepRuntimeId(p, x)] == StepMeta(x, SiteOf(src, p).value)
    {
      Codec.StepIsNotWorkflow(p, x, path);
    }
    forall p | SiteOf(src, p).Some? && Codec.WorkflowRuntimeId(p) in metadata'
      ensures var site := SiteOf(src, p).value;
              site in src.versions
                && metadata'[Codec.WorkflowRuntimeId(p)] == WorkflowMeta(src.versions[site], site)
    {
      if Codec.WorkflowRuntimeId(p) == key { Codec.WorkflowRuntimeIdInjective(p, path); }
    }
  }

  /** The identifiers of a tree. */
  function Ids(node: Node): set<string> {
    match node
    case LeafNode(id, _) => {id}
    case RepeatNode(id, _, children) => {id} + IdsOfAll(children)
    case WorkflowNode(id, steps, _) => {id} + IdsOfAll(steps)
    case CallNode(id, target, _, _) => {id} + Ids(target)
  }

  function IdsOfAll(nodes: seq<Node>): set<string> {
    if nodes == [] then {} else Ids(nodes[0]) + IdsOfAll(nodes[1..])
  }
}

/**
 The snapshot compiler (application/engine/compiler.go): it fills the metadata,
 specification and runtime-node maps of one entry and counts compiled nodes in
 a counter that all entries share.
 */
module Compiler {
  import opened Wrappers
  import opened Parameters
  import opened Plan
  import opened Phases
  import opened Execution
  import opened Snapshots
  import opened Trees
  import Codec

  const MAX_COMPILED_NODES: nat := 1_000_000

  datatype CompileError =
    | TooDeep
    | TooManyNodes
    | MissingWorkflow(version: string)
    | MissingResolution(stepId: string)
    | FragmentMismatch(stepId: string)
    | MissingInvocation(stepId: string)
    | MissingTarget(target: TargetRef)
    | SharedVersion(version: string)
    | InvalidSpec(target: TargetRef)

  /** The node counter of a whole compilation. */
  class Counter {
    var n: nat
    constructor ()
      ensures n == 0
    {
      n := 0;
    }
  }

  // ----- splitting a step list at the loop position -----

  /** These steps of version `v`, which runs at call site `scope`, can be compiled. */
  ghost predicate Compilable(src: Sources, rank: map<string, nat>, v: string, scope: string, steps: seq<Step>) {
    && Part(src, rank, v, scope, RefIds(steps)) && StepsLinked(src, v, steps)
    && Within(src.g, rank, v, steps)
  }

  ghost predicate CompilableStep(src: Sources, rank: map<string, nat>, v: string, scope: string, step: Step) {
    && Part(src, rank, v, scope, RefIdsOf(step)) && StepLinked(src, v, step)
    && StepWithin(src.g, rank, v, step)
  }

  lemma Split(src: Sources, rank: map<string, nat>, v: string, path: seq<string>, scope: string,
    steps: seq<Step>, i: nat)
    requires i < |steps| && Compilable(src, rank, v, scope, steps[i..])
    ensures CompilableStep(src, rank, v, scope, steps[i]) && Compilable(src, rank, v, scope, steps[i + 1..])
    ensures StepsTree(src, rank, v, path, scope, steps[i..])
         == [StepTree(src, rank, v, path, scope, steps[i])] + StepsTree(src, rank, v, path, scope, steps[i + 1..])
    ensures CountSteps(src.g, rank, v, steps[i..])
         == CountStep(src.g, rank, v, steps[i]) + CountSteps(src.g, rank, v, steps[i + 1..])
    ensures ChainSteps(src.g, rank, v, steps[i..])
         == Max(ChainStep(src.g, rank, v, steps[i]), ChainSteps(src.g, rank, v, steps[i + 1..]))
  {
    assert steps[i..][1..] == steps[i + 1..];
    PartIsWithin(src, rank, v, scope, RefIdsOf(steps[i]));
    PartIsWithin(src, rank, v, scope, RefIds(steps[i + 1..]));
  }

  predicate Fits(depth: nat, chain: nat) {
    depth + chain <= MAX_DEPTH
  }

  /** Halfway through a step list: `built` and `counted` stand for the first `i` steps. */
  ghost predicate Ahead(src: Sources, rank: map<string, nat>, v: string, path: seq<string>, scope: string,
    steps: seq<Step>, depth: nat, i: nat, built: seq<Node>, counted: nat)
  {
    && i <= |steps| && Compilable(src, rank, v, scope, steps) && Compilable(src, rank, v, scope, steps[i..])
    && built + StepsTree(src, rank, v, path, scope, steps[i..]) == StepsTree(src, rank, v, path, scope, steps)
    && counted + CountSteps(src.g, rank, v, steps[i..]) == CountSteps(src.g, rank, v, steps)
    && Fits(depth, ChainSteps(src.g, rank, v, steps[i..])) == Fits(depth, ChainSteps(src.g, rank, v, steps))
  }

  lemma AheadStart(src: Sources, rank: map<string, nat>, v: string, path: seq<string>, scope: string,
    steps: seq<Step>, depth: nat)
    requires Compilable(src, rank, v, scope, steps)
    ensures Ahead(src, rank, v, path, scope, steps, depth, 0, [], 0)
  {
    hide Compilable, StepsTree, CountSteps, ChainSteps;
    assert steps[0..] == steps;
  }

  /**
   What compiling a step list must yield: it fails, with TOO DEEP and nothing
   else, exactly when the longest chain below it goes too deep; otherwise it
   gives the tree of the steps, describes all its identifiers and has counted
   every node.
   */
  ghost predicate StepsOutcome(src: Sources, rank: map<string, nat>, v: string, path: seq<string>, scope: string,
    steps: seq<Step>, depth: nat, r: Result<seq<Node>, CompileError>, described: set<string>, counted: int)
    requires Compilable(src, rank, v, scope, steps)
  {
    && (r.Ok? <==> Fits(depth, ChainSteps(src.g, rank, v, steps)))
    && (r.Err? ==> r.error == TooDeep && 0 <= counted <= CountSteps(src.g, rank, v, steps))
    && (r.Ok? ==>
          && r.value == StepsTree(src, rank, v, path, scope, steps)
          && IdsOfAll(r.value) <= described
          && counted == CountSteps(src.g, rank, v, steps))
  }

  ghost predicate StepOutcome(src: Sources, rank: map<string, nat>, v: string, path: seq<string>, scope: string,
    step: Step, depth: nat, r: Result<Node, CompileError>, described: set<string>, counted: int)
    requires CompilableStep(src, rank, v, scope, step)
  {
    && (r.Ok? <==> Fits(depth, ChainStep(src.g, rank, v, step)))
    && (r.Err? ==> r.error == TooDeep && 0 <= counted <= CountStep(src.g, rank, v, step))
    && (r.Ok? ==>
          && r.value == StepTree(src, rank, v, path, scope, step)
          && Ids(r.value) <= described
          && counted == CountStep(src.g, rank, v, step))
  }

  ghost predicate WorkflowOutcome(src: Sources, rank: map<string, nat>, v: string, path: seq<string>, scope: string,
    depth: nat, r: Result<Node, CompileError>, described: set<string>, counted: int)
    requires At(src, rank, v, scope)
  {
    && (r.Ok? <==> depth + Chain(src.g, rank, v) <= MAX_DEPTH + 1)
    && (r.Err? ==> r.error == TooDeep && 0 <= counted <= Count(src.g, rank, v))
    && (r.Ok? ==>
          && r.value == WorkflowTree(src, rank, v, path, scope)
          && Ids(r.value) <= described
          && counted == Count(src.g, rank, v))
  }

  lemma AheadStep(src: Sources, rank: map<string, nat>, v: string, path: seq<string>, scope: string,
    steps: seq<Step>, depth: nat, i: nat, built: seq<Node>, counted: nat)
    requires i < |steps| && Ahead(src, rank, v, path, scope, steps, depth, i, built, counted)
    ensures CompilableStep(src, rank, v, scope, steps[i]) && Compilable(src, rank, v, scope, steps)
    ensures counted + CountStep(src.g, rank, v, steps[i]) <= CountSteps(src.g, rank, v, steps)
  {
    Split(src, rank, v, path, scope, steps, i);
    hide Compilable, CompilableStep, StepsTree, CountSteps, ChainSteps, CountStep, ChainStep;
  }

  /** A step that fails makes the whole list fail. */
  lemma AheadFails(src: Sources, rank: map<string, nat>, v: string, path: seq<string>, scope: string,
    steps: seq<Step>, depth: nat, i: nat, built: seq<Node>, counted: nat,
    step: Result<Node, CompileError>, described: set<string>, more: int)
    requires i < |steps| && Ahead(src, rank, v, path, scope, steps, depth, i, built, counted)
    requires CompilableStep(src, rank, v, scope, steps[i]) && step.Err?
    requires StepOutcome(src, rank, v, path, scope, steps[i], depth, step, described, more)
    ensures Compilable(src, rank, v, scope, steps)
    ensures StepsOutcome(src, rank, v, path, scope, steps, depth, Err(step.error), described, counted + more)
  {
    Split(src, rank, v, path, scope, steps, i);
    hide Compilable, CompilableStep, StepsTree, CountSteps, ChainSteps, CountStep, ChainStep;
  }

  lemma AheadNext(src: Sources, rank: map<string, nat>, v: string, path: seq<string>, scope: string,
    steps: seq<Step>, depth: nat, i: nat, built: seq<Node>, counted: nat,
    step: Result<Node, CompileError>, described: set<string>, more: int)
    requires i < |steps| && Ahead(src, rank, v, path, scope, steps, depth, i, built, counted)
    requires CompilableStep(src, rank, v, scope, steps[i]) && step.Ok? && IdsOfAll(built) <= described
    requires StepOutcome(src, rank, v, path, scope, steps[i], depth, step, described, more)
    ensures 0 <= more
    ensures Ahead(src, rank, v, path, scope, steps, depth, i + 1, built + [step.value], counted + more)
    ensures IdsOfAll(built + [step.value]) <= described
  {
    Split(src, rank, v, path, scope, steps, i);
    var rest := StepsTree(src, rank, v, path, scope, steps[i + 1..]);
    assert (built + [step.value]) + rest == built + ([step.value] + rest);
    hide Compilable, CompilableStep, StepsTree, CountSteps, ChainSteps, CountStep, ChainStep, StepTree;
    IdsPush(built, step.value);
  }

  lemma AheadEnd(src: Sources, rank: map<string, nat>, v: string, path: seq<string>, scope: string,
    steps: seq<Step>, depth: nat, built: seq<Node>, counted: nat, described: set<string>)
    requires Ahead(src, rank, v, path, scope, steps, depth, |steps|, built, counted) && depth <= MAX_DEPTH
    requires IdsOfAll(built) <= described
    ensures Compilable(src, rank, v, scope, steps)
    ensures StepsOutcome(src, rank, v, path, scope, steps, depth, Ok(built), described, counted)
  {
    assert steps[|steps|..] == [];
    assert built + [] == built;
  }

  lemma {:induction false} IdsAppend(a: seq<Node>, b: seq<Node>)
    ensures IdsOfAll(a + b) == IdsOfAll(a) + IdsOfAll(b)
  {
    if a == [] {
      assert a + b == b;
    } else {
      IdsAppend(a[1..], b);
      assert (a + b)[1..] == a[1..] + b;
    }
  }

  lemma IdsPush(a: seq<Node>, n: Node)
    ensures IdsOfAll(a + [n]) == IdsOfAll(a) + Ids(n)
  {
    IdsAppend(a, [n]);
    assert IdsOfAll([n]) == Ids(n) + IdsOfAll([]);
  }

  /** The string path of a call made below another one. */
  lemma CallComponents(path: seq<string>, id: string, version: string)
    ensures Codec.Components(path + [id, version])
         == Codec.Components(path) + Codec.Component(id) + Codec.Component(version)
  {
    hide Codec.Component;
    var longer := path + [id, version];
    assert longer[..|longer| - 1] == path + [id];
    assert (path + [id])[..|path|] == path;
  }

  /** The schema map of a called workflow, built in a loop. */
  method BuildSchemas(definitions: seq<Definition>) returns (schemas: map<string, Constraint>)
    ensures schemas == Schemas(definitions)
  {
    schemas := map[];
    for i := 0 to |definitions|
      invariant schemas == Schemas(definitions[..i])
    {
      assert definitions[..i + 1][..i] == definitions[..i];
      schemas := schemas[definitions[i].name := definitions[i].Schema()];
    }
    assert definitions[..|definitions|] == definitions;
  }

  class EntryCompiler {
    const src: Sources
    const counter: Counter
    ghost const rank: map<string, nat>
    var metadata: map<string, Meta>
    var programSpecs: map<string, NodeSnapshot>
    var runtimeNodes: map<string, TargetRef>

    constructor (src: Sources, counter: Counter, ghost rank: map<string, nat>)
      requires OwnersUnique(src.nodes)
      ensures Valid() && this.src == src && this.counter == counter && this.rank == rank
      ensures metadata == map[]
    {
      this.src, this.counter, this.rank := src, counter, rank;
      metadata, programSpecs, runtimeNodes := map[], map[], map[];
    }

    /** Cached specifications are those of the elements recorded beside them. */
    ghost predicate CachesHold()
      reads this`programSpecs, this`runtimeNodes
    {
      && OwnersUnique(src.nodes)
      && programSpecs.Keys == runtimeNodes.Keys
      && forall v | v in programSpecs ::
           && runtimeNodes[v] in src.nodes && runtimeNodes[v].version == v
           && programSpecs[v] == src.nodes[runtimeNodes[v]] && programSpecs[v].valid
    }

    ghost predicate Valid()
      reads this`metadata, this`programSpecs, this`runtimeNodes
    {
      Truthful(src, metadata) && CachesHold()
    }

    /** The specification of an element version; compiled once, then cached by version. */
    method Spec(target: TargetRef) returns (r: Result<TargetRef, CompileError>)
      requires CachesHold() && TargetKnown(src.nodes, target)
      modifies this`programSpecs, this`runtimeNodes
      ensures CachesHold()
      ensures r == Ok(target)
      ensures target.version in programSpecs && programSpecs[target.version] == src.nodes[target]
      ensures runtimeNodes[target.version] == target
      ensures old(programSpecs.Keys) <= programSpecs.Keys
    {
      if target !in src.nodes { return Err(MissingTarget(target)); }
      if target.version in programSpecs {
        if runtimeNodes[target.version].element != target.element { return Err(SharedVersion(target.version)); }
        return Ok(target);
      }
      if !src.nodes[target].valid { return Err(InvalidSpec(target)); }
      programSpecs := programSpecs[target.version := src.nodes[target]];
      runtimeNodes := runtimeNodes[target.version := target];
      return Ok(target);
    }

    /** Records what the runtime identifier of a step stands for. */
    method Describe(invocationPath: string, ghost path: seq<string>, scope: string, stepId: string)
      returns (runtimeId: string)
      requires Valid() && SiteOf(src, path) == Some(scope) && invocationPath == Codec.Components(path)
      modifies this`metadata
      ensures Valid() && runtimeId == Codec.StepRuntimeId(path, stepId)
      ensures metadata.Keys == old(metadata.Keys) + {runtimeId}
      ensures metadata[runtimeId] == StepMeta(stepId, scope)
    {
      runtimeId := "step|" + invocationPath + Codec.Component(stepId);
      TruthfulStep(src, metadata, path, stepId, scope);
      metadata := metadata[runtimeId := StepMeta(stepId, scope)];
    }

    method CompileMembers(invocationPath: string, ghost path: seq<string>, scope: string, members: seq<Member>)
      returns (r: Result<seq<GroupMember>, CompileError>)
      requires Valid() && SiteOf(src, path) == Some(scope) && invocationPath == Codec.Components(path)
      requires forall m | m in members :: TargetKnown(src.nodes, m.target)
      requires counter.n + |members| <= MAX_COMPILED_NODES
      modifies this`metadata, this`programSpecs, this`runtimeNodes, counter
      ensures Valid() && r == Ok(MembersTree(members))
      ensures old(metadata.Keys) <= metadata.Keys
      ensures counter.n == old(counter.n) + |members|
    {
      var result: seq<GroupMember> := [];
      for i := 0 to |members|
        invariant Valid() && result == MembersTree(members[..i])
        invariant old(metadata.Keys) <= metadata.Keys
        invariant counter.n == old(counter.n) + i
      {
        hide Truthful;
        assert members[..i + 1][..i] == members[..i];
        counter.n := counter.n + 1;
        if counter.n > MAX_COMPILED_NODES { return Err(TooManyNodes); }
        var runtimeId := Describe(invocationPath, path, scope, members[i].id);
        assert members[i] in members;
        var target := Spec(members[i].target);
        match target {
          case Err(e) => return Err(e);
          case Ok(spec) => result := result + [GroupMember(members[i].id, spec)];
        }
      }
      assert members[..|members|] == members;
      return Ok(result);
    }

    method CompileValidationGroup(invocationPath: string, ghost path: seq<string>, scope: string,
      branches: seq<Branch>)
      returns (r: Result<seq<GroupBranch>, CompileError>)
      requires Valid() && SiteOf(src, path) == Some(scope) && invocationPath == Codec.Components(path)
      requires forall b | b in branches :: forall m | m in b.members :: TargetKnown(src.nodes, m.target)
      requires counter.n + MemberCount(branches) <= MAX_COMPILED_NODES
      modifies this`metadata, this`programSpecs, this`runtimeNodes, counter
      ensures Valid() && r == Ok(BranchesTree(branches))
      ensures old(metadata.Keys) <= metadata.Keys
      ensures counter.n == old(counter.n) + MemberCount(branches)
    {
      var result: seq<GroupBranch> := [];
      for i := 0 to |branches|
        invariant Valid() && result == BranchesTree(branches[..i])
        invariant old(metadata.Keys) <= metadata.Keys
        invariant counter.n == old(counter.n) + MemberCount(branches[..i])
      {
        hide Truthful;
        assert branches[..i + 1][..i] == branches[..i];
        MemberCountMonotone(branches, i + 1);
        assert branches[i] in branches;
        var members := CompileMembers(invocationPath, path, scope, branches[i].members);
        match members {
          case Err(e) => return Err(e);
          case Ok(list) => result := result + [GroupBranch(branches[i].id, list)];
        }
      }
      assert branches[..|branches|] == branches;
      return Ok(result);
    }

    method CompileWorkflow(v: string, invocationPath: string, ghost path: seq<string>, scope: string, depth: nat)
      returns (r: Result<Node, CompileError>)
      requires Valid() && At(src, rank, v, scope)
      requires SiteOf(src, path) == Some(scope) && invocationPath == Codec.Components(path)
      requires counter.n + Count(src.g, rank, v) <= MAX_COMPILED_NODES
      modifies this`metadata, this`programSpecs, this`runtimeNodes, counter
      ensures Valid() && old(metadata.Keys) <= metadata.Keys
      ensures WorkflowOutcome(src, rank, v, path, scope, depth, r, metadata.Keys, counter.n - old(counter.n))
      decreases rank[v], src.g.workflows[v].steps, 1
    {
      if depth > MAX_DEPTH { return Err(TooDeep); }
      if v !in src.g.workflows { return Err(MissingWorkflow(v)); }
      var runtimeId := "workflow|" + invocationPath;
      TruthfulWorkflow(src, metadata, path, v, scope);
      metadata := metadata[runtimeId := WorkflowMeta(v, scope)];
      PartIsWithin(src, rank, v, scope, RefIds(src.g.workflows[v].steps));
      var children := CompileSteps(v, invocationPath, path, scope, src.g.workflows[v].steps, depth);
      if children.Err? { return Err(children.error); }
      return Ok(WorkflowNode(runtimeId, children.value, None));
    }

    method CompileSteps(v: string, invocationPath: string, ghost path: seq<string>, scope: string,
      steps: seq<Step>, depth: nat)
      returns (r: Result<seq<Node>, CompileError>)
      requires Valid() && Compilable(src, rank, v, scope, steps)
      requires SiteOf(src, path) == Some(scope) && invocationPath == Codec.Components(path)
      requires depth <= MAX_DEPTH && counter.n + CountSteps(src.g, rank, v, steps) <= MAX_COMPILED_NODES
      modifies this`metadata, this`programSpecs, this`runtimeNodes, counter
      ensures Valid() && old(metadata.Keys) <= metadata.Keys
      ensures StepsOutcome(src, rank, v, path, scope, steps, depth, r, metadata.Keys, counter.n - old(counter.n))
      decreases rank[v], steps, 0
    {
      var result: seq<Node> := [];
      ghost var counted: nat := 0;
      assert IdsOfAll(result) == {};
      hide Truthful, CachesHold, Valid, Compilable, CompilableStep, Ahead, StepsTree, StepTree;
      hide CountSteps, CountStep, ChainSteps, ChainStep, SiteOf, Codec.Components, Ids, IdsOfAll;
      hide StepsOutcome, StepOutcome;
      AheadStart(src, rank, v, path, scope, steps, depth);
      for i := 0 to |steps|
        invariant Valid() && Ahead(src, rank, v, path, scope, steps, depth, i, result, counted)
        invariant IdsOfAll(result) <= metadata.Keys && old(metadata.Keys) <= metadata.Keys
        invariant counter.n == old(counter.n) + counted
      {
        ghost var before := counter.n;
        AheadStep(src, rank, v, path, scope, steps, depth, i, result, counted);
        var node := CompileStep(v, invocationPath, path, scope, steps[i], depth);
        ghost var more := counter.n - before;
        if node.Err? {
          AheadFails(src, rank, v, path, scope, steps, depth, i, result, counted, node, metadata.Keys, more);
          return Err(node.error);
        }
        AheadNext(src, rank, v, path, scope, steps, depth, i, result, counted, node, metadata.Keys, more);
        counted := counted + more;
        result := result + [node.value];
      }
      AheadEnd(src, rank, v, path, scope, steps, depth, result, counted, metadata.Keys);
      return Ok(result);
    }

    /** One turn of the loop over steps: the step is counted, described and compiled by kind. */
    method CompileStep(v: string, invocationPath: string, ghost path: seq<string>, scope: string,
      step: Step, depth: nat)
      returns (r: Result<Node, CompileError>)
      requires Valid() && CompilableStep(src, rank, v, scope, step)
      requires SiteOf(src, path) == Some(scope) && invocationPath == Codec.Components(path)
      requires depth <= MAX_DEPTH && counter.n + CountStep(src.g, rank, v, step) <= MAX_COMPILED_NODES
      modifies this`metadata, this`programSpecs, this`runtimeNodes, counter
      ensures Valid() && old(metadata.Keys) <= metadata.Keys
      ensures StepOutcome(src, rank, v, path, scope, step, depth, r, metadata.Keys, counter.n - old(counter.n))
      decreases rank[v], step, 1
    {
      counter.n := counter.n + 1;
      if counter.n > MAX_COMPILED_NODES { return Err(TooManyNodes); }
      var runtimeId := Describe(invocationPath, path, scope, step.id);
      match step {
        case ActionStep(_, action, target, optional) =>
          if target.Some? {
            var spec := Spec(target.value);
            match spec {
              case Err(e) => return Err(e);
              case Ok(t) => return Ok(LeafNode(runtimeId, ActionLeaf(action, Some(t), optional)));
            }
          }
          return Ok(LeafNode(runtimeId, ActionLeaf(action, None, optional)));
        case WaitStep(_, wait, target, ms) =>
          if wait.Sleep? || wait.NetworkIdle? {
            return Ok(LeafNode(runtimeId, WaitLeaf(wait, None, ms)));
          }
          var spec := Spec(target.value);
          match spec {
            case Err(e) => return Err(e);
            case Ok(t) => return Ok(LeafNode(runtimeId, WaitLeaf(wait, Some(t), ms)));
          }
        case ValidationStep(_, target, ms) =>
          var spec := Spec(target);
          match spec {
            case Err(e) => return Err(e);
            case Ok(t) => return Ok(LeafNode(runtimeId, ValidationLeaf(t, ms)));
          }
        case GroupStep(_, branches, ms) =>
          var group := CompileValidationGroup(invocationPath, path, scope, branches);
          match group {
            case Err(e) => return Err(e);
            case Ok(list) => return Ok(LeafNode(runtimeId, GroupLeaf(list, ms)));
          }
        case RepeatStep(_, times, children) =>
          var body := CompileSteps(v, invocationPath, path, scope, children, depth);
          if body.Err? { return Err(body.error); }
          return Ok(RepeatNode(runtimeId, times, body.value));
        case ReferenceStep(id, fragment, _, _) =>
          r := CompileWorkflowCall(v, invocationPath, path, scope, runtimeId, step, depth);
      }
    }

    method CompileWorkflowCall(v: string, invocationPath: string, ghost path: seq<string>, scope: string,
      runtimeId: string, step: Step, depth: nat)
      returns (r: Result<Node, CompileError>)
      requires step.ReferenceStep?
      requires Valid() && CompilableStep(src, rank, v, scope, step)
      requires SiteOf(src, path) == Some(scope) && invocationPath == Codec.Components(path)
      requires runtimeId == Codec.StepRuntimeId(path, step.id) && runtimeId in metadata
      requires depth <= MAX_DEPTH && counter.n + CountStep(src.g, rank, v, step) <= MAX_COMPILED_NODES + 1
      modifies this`metadata, this`programSpecs, this`runtimeNodes, counter
      ensures Valid() && old(metadata.Keys) <= metadata.Keys
      ensures StepOutcome(src, rank, v, path, scope, step, depth, r, metadata.Keys, counter.n - old(counter.n) + 1)
      decreases rank[v], step, 0
    {
      PartCalls(src, rank, v, scope, step.id);
      var key := EdgeKey(v, step.id);
      if key !in src.g.resolutions { return Err(MissingResolution(step.id)); }
      var resolution := src.g.resolutions[key];
      if resolution.version !in src.g.workflows { return Err(MissingWorkflow(resolution.version)); }
      var child := src.g.workflows[resolution.version];
      if FragmentOf(child) != step.fragment || resolution.fragment != step.fragment {
        return Err(FragmentMismatch(step.id));
      }
      var call := CallKey(scope, step.id);
      if call !in src.calls { return Err(MissingInvocation(step.id)); }
      var concrete := src.calls[call];
      ghost var t := Target(src.g, v, step.id);
      SiteOfCall(src, path, scope, step.id, t);
      CallComponents(path, step.id, t);
      hide Truthful;
      var childPath := invocationPath + Codec.Component(step.id) + Codec.Component(resolution.version);
      var target := CompileWorkflow(resolution.version, childPath, path + [step.id, t], concrete.path, depth + 1);
      if target.Err? { return Err(target.error); }
      var constraints := BuildSchemas(child.parameters);
      return Ok(CallNode(runtimeId, target.value, concrete.values, constraints));
    }
  }

  lemma {:induction false} MemberCountMonotone(branches: seq<Branch>, i: nat)
    requires i <= |branches|
    ensures MemberCount(branches[..i]) <= MemberCount(branches)
    decreases |branches| - i
  {
    if i < |branches| {
      assert branches[..i + 1][..i] == branches[..i];
      MemberCountMonotone(branches, i + 1);
    } else {
      assert branches[..i] == branches;
    }
  }
}

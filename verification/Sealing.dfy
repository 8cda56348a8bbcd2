/**
 What sealing a snapshot checks (domain/execution/validation.go,
 domain/execution/instance_snapshot.go), and what compilation may therefore rely
 on: every entry has its root call site and every reference step of a call site
 its one child, whose frozen scope is its own bindings resolved in its parent.
 */
module Sealing {
  import opened Wrappers
  import opened Text
  import opened Parameters
  import opened Plan
  import opened Indexes
  import opened Snapshots
  import opened Trees
  import opened Execution
  import Budget
  import Codec

  // ----- the plan -----

  /** `validateDependencies`: targets are held and references agree with their resolutions. */
  predicate Depends(g: Graph, nodes: map<TargetRef, NodeSnapshot>, v: string, steps: seq<Step>) {
    steps == [] || (DependsStep(g, nodes, v, steps[0]) && Depends(g, nodes, v, steps[1..]))
  }

  predicate DependsStep(g: Graph, nodes: map<TargetRef, NodeSnapshot>, v: string, step: Step) {
    match step
    case ActionStep(_, _, target, _) => target.Some? ==> target.value in nodes
    case WaitStep(_, _, target, _) => target.Some? ==> target.value in nodes
    case ValidationStep(_, target, _) => target in nodes
    case GroupStep(_, branches, _) => forall b | b in branches :: forall m | m in b.members :: m.target in nodes
    case RepeatStep(_, _, children) => Depends(g, nodes, v, children)
    case ReferenceStep(id, fragment, version, bindings) => DependsReference(g, v, id, fragment, version, bindings)
  }

  /** The parameters a version declares; a version the plan does not hold declares none. */
  function ParametersOf(g: Graph, v: string): seq<Definition> {
    if v in g.workflows then g.workflows[v].parameters else []
  }

  predicate DependsReference(g: Graph, v: string, id: string, fragment: string, version: string,
    bindings: map<string, Binding>)
  {
    && !Blank(version)
    && EdgeKey(v, id) in g.resolutions
    && g.resolutions[EdgeKey(v, id)].fragment == fragment
    && g.resolutions[EdgeKey(v, id)].version == version
    && version in g.workflows && g.workflows[version].fragment == fragment
    && BindingsOk(ParametersOf(g, v), g.workflows[version].parameters, bindings)
  }

  /** The rules of a workflow that later steps rely on. */
  ghost predicate WorkflowOk(w: Workflow) {
    (w.id == "" || w.id == w.fragment) && Shaped(w.steps) && DefinitionsOk(w.parameters) && UniqueRefs(RefBag(w.steps))
  }

  predicate EntryOk(g: Graph, e: Entry) {
    && Codec.ValidIdentity(e.id)
    && e.version in g.workflows && g.workflows[e.version].fragment == e.fragment
    && ValuesFit(g.workflows[e.version].parameters, e.values)
  }

  /** Every resolution belongs to a reference step. */
  predicate NoStrayResolution(g: Graph) {
    forall key | key in g.resolutions ::
      key.parent in g.workflows && key.stepId in RefIds(g.workflows[key.parent].steps)
  }

  ghost predicate PlanOk(s: Snapshot, rank: map<string, nat>) {
    var g, nodes := GraphOf(s), NodesOf(s);
    && DistinctKeys(s.entries, ENTRY_KEY) && DistinctKeys(s.workflows, WORKFLOW_KEY)
    && DistinctKeys(s.nodes, NODE_KEY) && DistinctKeys(s.references, REFERENCE_KEY)
    && (forall n | n in s.nodes :: n.valid) && OwnersUnique(nodes)
    && (forall w | w in s.workflows :: WorkflowOk(w))
    && (forall e | e in s.entries :: EntryOk(g, e))
    && Closed(g, rank) && (forall v | v in Roots(s) :: v in rank)
    && !Budget.TotalPrice(g, rank, Roots(s)).Over()
    && (forall w | w in s.workflows :: Depends(g, nodes, w.versionId, w.steps))
    && NoStrayResolution(g)
  }

  // ----- the call sites -----

  /** The frozen scope of a call: its bindings resolved in the caller's values, then the defaults. */
  function ScopeOf(bindings: map<string, Binding>, definitions: seq<Definition>, caller: Scope): Option<Scope> {
    match ResolveBindings(bindings, caller)
    case None => None
    case Some(values) => Some(WithDefaults(definitions, values))
  }

  predicate RootOk(entries: map<string, Entry>, call: Invocation) {
    && call.bindings == map[] && call.parentVersion == "" && call.stepId == ""
    && call.path in entries
    && var entry := entries[call.path];
       entry.fragment == call.fragment && entry.version == call.version && entry.values == call.values
  }

  /** The call's path is the canonical one for its parent and step. */
  predicate CanonicalPath(call: Invocation)
    requires call.parent.Some?
  {
    Codec.Child(call.parent.value, call.stepId) == Some(call.path)
  }

  predicate ChildOk(g: Graph, sites: map<string, Invocation>, call: Invocation)
    requires call.parent.Some?
  {
    && call.parent.value in sites
    && CanonicalPath(call)
    && EdgeKey(call.parentVersion, call.stepId) in g.resolutions
    && call.parentVersion in g.workflows && call.stepId in RefIds(g.workflows[call.parentVersion].steps)
    && sites[call.parent.value].version == call.parentVersion
    && g.resolutions[EdgeKey(call.parentVersion, call.stepId)].fragment == call.fragment
    && g.resolutions[EdgeKey(call.parentVersion, call.stepId)].version == call.version
    && call.version in g.workflows
    && ScopeOf(call.bindings, g.workflows[call.version].parameters, sites[call.parent.value].values)
         == Some(call.values)
    && ValuesFit(g.workflows[call.version].parameters, call.values)
  }

  predicate CallOk(g: Graph, entries: map<string, Entry>, sites: map<string, Invocation>, call: Invocation) {
    if call.parent.None? then RootOk(entries, call) else ChildOk(g, sites, call)
  }

  function RootCount(calls: seq<Invocation>): nat {
    if calls == [] then 0
    else RootCount(calls[..|calls| - 1]) + (if calls[|calls| - 1].parent.None? then 1 else 0)
  }

  /** Whether a call is made by step `id` inside the call site `p`. */
  predicate CalledFrom(call: Invocation, p: string, id: string) {
    call.parent == Some(p) && call.stepId == id
  }

  function ChildCount(calls: seq<Invocation>, p: string, id: string): nat {
    if calls == [] then 0
    else ChildCount(calls[..|calls| - 1], p, id) + (if CalledFrom(calls[|calls| - 1], p, id) then 1 else 0)
  }

  /** One child call for every reference step of a call site. */
  predicate OneChildPerEdge(g: Graph, calls: seq<Invocation>, call: Invocation) {
    && call.version in g.workflows
    && forall id | id in RefIds(g.workflows[call.version].steps) :: ChildCount(calls, call.path, id) == 1
  }

  function Sites(s: Snapshot): map<string, Invocation> {
    IndexBy(s.invocations, PATH_KEY)
  }

  predicate PathOk(call: Invocation) {
    Codec.ValidPath(call.path) && !Blank(call.fragment) && !Blank(call.version)
      && |call.fragment| <= MAX_STRING_BYTES && |call.version| <= MAX_STRING_BYTES
  }

  ghost predicate CallsOk(s: Snapshot) {
    var g, entries, sites := GraphOf(s), IndexBy(s.entries, ENTRY_KEY), Sites(s);
    && DistinctKeys(s.invocations, PATH_KEY)
    && (forall call | call in s.invocations :: PathOk(call) && CallOk(g, entries, sites, call))
    && RootCount(s.invocations) == |s.entries|
    && (forall call | call in s.invocations :: OneChildPerEdge(g, s.invocations, call))
  }

  /** A sealed snapshot; `rank` orders the workflow versions its entries reach. */
  ghost predicate Sealed(s: Snapshot, rank: map<string, nat>) {
    PlanOk(s, rank) && CallsOk(s)
  }

  // ----- one root per entry -----

  ghost function RootPaths(calls: seq<Invocation>): set<string> {
    if calls == [] then {} else
    var init, last := RootPaths(calls[..|calls| - 1]), calls[|calls| - 1];
    if last.parent.None? then init + {last.path} else init
  }

  lemma {:induction false} RootPathsAre(calls: seq<Invocation>, p: string)
    ensures p in RootPaths(calls) <==> exists call :: call in calls && call.parent.None? && call.path == p
  {
    if calls != [] {
      var init, last := calls[..|calls| - 1], calls[|calls| - 1];
      RootPathsAre(init, p);
      assert forall call :: call in calls <==> call in init || call == last;
    }
  }

  lemma {:induction false} RootPathsCount(calls: seq<Invocation>)
    requires DistinctKeys(calls, PATH_KEY)
    ensures |RootPaths(calls)| == RootCount(calls)
  {
    if calls != [] {
      var init, last := calls[..|calls| - 1], calls[|calls| - 1];
      assert forall i | 0 <= i < |init| :: PATH_KEY(init[i]) == PATH_KEY(calls[i]);
      RootPathsCount(init);
      RootPathsAre(init, last.path);
      forall call | call in init
        ensures call.path != last.path
      {
        var i :| 0 <= i < |init| && init[i] == call;
        assert PATH_KEY(calls[i]) != PATH_KEY(calls[|calls| - 1]);
      }
    }
  }

  ghost function EntryIds(entries: seq<Entry>): set<string> {
    if entries == [] then {} else EntryIds(entries[..|entries| - 1]) + {entries[|entries| - 1].id}
  }

  lemma {:induction false} EntryIdsAre(entries: seq<Entry>, id: string)
    ensures id in EntryIds(entries) <==> exists i :: 0 <= i < |entries| && entries[i].id == id
  {
    if entries != [] {
      var init, last := entries[..|entries| - 1], entries[|entries| - 1];
      EntryIdsAre(init, id);
      if id in EntryIds(entries) {
        if id == last.id {
          assert entries[|entries| - 1].id == id;
        } else {
          var i :| 0 <= i < |init| && init[i].id == id;
          assert entries[i].id == id;
        }
      } else {
        forall i | 0 <= i < |entries|
          ensures entries[i].id != id
        {
          if i < |init| { assert init[i].id != id; }
        }
      }
    }
  }

  lemma {:induction false} EntryIdsCount(entries: seq<Entry>)
    requires DistinctKeys(entries, ENTRY_KEY)
    ensures |EntryIds(entries)| == |entries|
  {
    if entries != [] {
      var init, last := entries[..|entries| - 1], entries[|entries| - 1];
      assert forall i | 0 <= i < |init| :: ENTRY_KEY(init[i]) == ENTRY_KEY(entries[i]);
      EntryIdsCount(init);
      EntryIdsAre(init, last.id);
      forall i | 0 <= i < |init|
        ensures init[i].id != last.id
      {
        assert ENTRY_KEY(entries[i]) != ENTRY_KEY(entries[|entries| - 1]);
      }
    }
  }

  lemma SubsetOfSameSize<T>(a: set<T>, b: set<T>)
    requires a <= b && |a| == |b|
    ensures a == b
  {
    assert |b - a| == |b| - |a|;
  }

  /** As many distinct roots as entries, each named by an entry: so every entry has its root. */
  lemma RootOfEntry(s: Snapshot, e: Entry) returns (call: Invocation)
    requires CallsOk(s) && DistinctKeys(s.entries, ENTRY_KEY) && e in s.entries
    ensures call in s.invocations && call.path == e.id && call.version == e.version && call.values == e.values
    ensures call.parent.None?
  {
    var entries := IndexBy(s.entries, ENTRY_KEY);
    RootPathsCount(s.invocations);
    EntryIdsCount(s.entries);
    forall p | p in RootPaths(s.invocations)
      ensures p in EntryIds(s.entries)
    {
      RootPathsAre(s.invocations, p);
      var root :| root in s.invocations && root.parent.None? && root.path == p;
      assert RootOk(entries, root);
      IndexHolds(s.entries, ENTRY_KEY, p);
      EntryIdsAre(s.entries, p);
    }
    SubsetOfSameSize(RootPaths(s.invocations), EntryIds(s.entries));
    var i :| 0 <= i < |s.entries| && s.entries[i] == e;
    EntryIdsAre(s.entries, e.id);
    RootPathsAre(s.invocations, e.id);
    call :| call in s.invocations && call.parent.None? && call.path == e.id;
    assert RootOk(entries, call);
    IndexGives(s.entries, ENTRY_KEY, i);
  }

  // ----- one child per reference step -----

  lemma {:induction false} CallsOfHolds(calls: seq<Invocation>, p: string, id: string)
    ensures CallKey(p, id) in CallsOf(calls) <==> ChildCount(calls, p, id) > 0
    ensures CallKey(p, id) in CallsOf(calls) ==>
      CallsOf(calls)[CallKey(p, id)] in calls && CalledFrom(CallsOf(calls)[CallKey(p, id)], p, id)
  {
    if calls != [] {
      CallsOfHolds(calls[..|calls| - 1], p, id);
    }
  }

  lemma SiteGives(s: Snapshot, call: Invocation)
    requires DistinctKeys(s.invocations, PATH_KEY) && call in s.invocations
    ensures call.path in Sites(s) && Sites(s)[call.path] == call
  {
    var i :| 0 <= i < |s.invocations| && s.invocations[i] == call;
    IndexGives(s.invocations, PATH_KEY, i);
  }

  lemma SiteIsCall(s: Snapshot, p: string)
    requires p in Sites(s)
    ensures Sites(s)[p] in s.invocations && Sites(s)[p].path == p
  {
    IndexHolds(s.invocations, PATH_KEY, p);
  }

  lemma WorkflowGives(s: Snapshot, v: string)
    requires v in GraphOf(s).workflows
    ensures GraphOf(s).workflows[v] in s.workflows && GraphOf(s).workflows[v].versionId == v
  {
    IndexHolds(s.workflows, WORKFLOW_KEY, v);
  }

  // ----- values and schemas -----

  lemma {:induction false} SchemasHold(definitions: seq<Definition>, n: string)
    requires UniqueNames(definitions)
    ensures n in Schemas(definitions) <==> exists i :: 0 <= i < |definitions| && definitions[i].name == n
    ensures forall i | 0 <= i < |definitions| && definitions[i].name == n ::
      n in Schemas(definitions) && Schemas(definitions)[n] == definitions[i].Schema()
  {
    if definitions != [] {
      var init, last := definitions[..|definitions| - 1], definitions[|definitions| - 1];
      assert forall i | 0 <= i < |init| :: init[i] == definitions[i];
      SchemasHold(init, n);
      if n in Schemas(init) {
        var i :| 0 <= i < |init| && init[i].name == n;
        assert definitions[i].name == n;
      }
      if n == last.name { assert definitions[|definitions| - 1].name == n; }
    }
  }

  /** Values that fit the declared parameters always satisfy the schemas checked at run time. */
  lemma FittingValuesHold(definitions: seq<Definition>, values: Scope)
    requires ValuesFit(definitions, values)
    ensures BindingsHold(values, Schemas(definitions))
  {
    var schemas := Schemas(definitions);
    forall n
      ensures n in values <==> n in schemas
      ensures n in values ==> schemas[n].Accepts(values[n])
    {
      SchemasHold(definitions, n);
      if n in values {
        var i :| 0 <= i < |definitions| && definitions[i].name == n;
        assert definitions[i].Accepts(values[n]);
      }
    }
    assert values.Keys == schemas.Keys;
  }

  // ----- what compilation relies on -----

  function VersionsOf(sites: map<string, Invocation>): map<string, string> {
    map p | p in sites :: sites[p].version
  }

  function SourcesOf(s: Snapshot): Sources {
    Sources(GraphOf(s), NodesOf(s), CallsOf(s.invocations), VersionsOf(Sites(s)))
  }

  lemma {:induction false} DependsLinks(src: Sources, v: string, steps: seq<Step>)
    requires Depends(src.g, src.nodes, v, steps) && Shaped(steps)
    requires forall t | t in src.nodes :: src.nodes[t].valid
    requires forall w | w in src.g.workflows :: WorkflowOk(src.g.workflows[w])
    ensures StepsLinked(src, v, steps)
    decreases steps, 0
  {
    if steps != [] {
      DependsLinksStep(src, v, steps[0]);
      DependsLinks(src, v, steps[1..]);
    }
  }

  lemma {:induction false} DependsLinksStep(src: Sources, v: string, step: Step)
    requires DependsStep(src.g, src.nodes, v, step) && ShapedStep(step)
    requires forall t | t in src.nodes :: src.nodes[t].valid
    requires forall w | w in src.g.workflows :: WorkflowOk(src.g.workflows[w])
    ensures StepLinked(src, v, step)
    decreases step, 1
  {
    match step {
      case RepeatStep(_, _, children) => DependsLinks(src, v, children);
      case ReferenceStep(id, fragment, version, _) => assert WorkflowOk(src.g.workflows[version]);
      case _ =>
    }
  }

  /** Every reference step of a call site leads to its one child. */
  lemma ReferenceIsCall(s: Snapshot, p: string, id: string)
    requires CallsOk(s)
    requires p in Sites(s) && Sites(s)[p].version in GraphOf(s).workflows
    requires id in RefIds(GraphOf(s).workflows[Sites(s)[p].version].steps)
    ensures CallLinked(SourcesOf(s), p, Sites(s)[p].version, id)
  {
    var g, sites := GraphOf(s), Sites(s);
    SiteIsCall(s, p);
    assert OneChildPerEdge(g, s.invocations, sites[p]);
    CallsOfHolds(s.invocations, p, id);
    var call := CallsOf(s.invocations)[CallKey(p, id)];
    assert CallOk(g, IndexBy(s.entries, ENTRY_KEY), sites, call);
    SiteGives(s, call);
    FittingValuesHold(g.workflows[call.version].parameters, call.values);
    hide BindingsHold, ValuesFit, ScopeOf, CanonicalPath, OneChildPerEdge, CallsOf;
  }

  lemma NodesAreValid(s: Snapshot)
    requires forall n | n in s.nodes :: n.valid
    ensures forall t | t in NodesOf(s) :: NodesOf(s)[t].valid
  {
    forall t | t in NodesOf(s)
      ensures NodesOf(s)[t].valid
    {
      IndexHolds(s.nodes, NODE_KEY, t);
    }
  }

  /** A sealed snapshot gives the compiler everything it looks up. */
  lemma SealedIsLinked(s: Snapshot, rank: map<string, nat>)
    requires Sealed(s, rank)
    ensures Linked(SourcesOf(s), rank)
  {
    var src := SourcesOf(s);
    NodesAreValid(s);
    forall v | v in src.g.workflows
      ensures WorkflowOk(src.g.workflows[v]) && Depends(src.g, src.nodes, v, src.g.workflows[v].steps)
    {
      WorkflowGives(s, v);
    }
    forall v | v in rank
      ensures StepsLinked(src, v, src.g.workflows[v].steps)
    {
      DependsLinks(src, v, src.g.workflows[v].steps);
    }
    forall p, id | p in src.versions && src.versions[p] in rank && id in RefIds(src.g.workflows[src.versions[p]].steps)
      ensures CallLinked(src, p, src.versions[p], id)
    {
      ReferenceIsCall(s, p, id);
    }
  }

  /** Every entry has a root call site that runs the entry's version with the entry's values. */
  lemma EntryIsAt(s: Snapshot, rank: map<string, nat>, i: nat)
    requires Sealed(s, rank) && i < |s.entries|
    ensures At(SourcesOf(s), rank, s.entries[i].version, s.entries[i].id)
    ensures s.entries[i].id in Sites(s) && Sites(s)[s.entries[i].id].values == s.entries[i].values
  {
    SealedIsLinked(s, rank);
    assert Roots(s)[i] == s.entries[i].version;
    var call := RootOfEntry(s, s.entries[i]);
    SiteGives(s, call);
  }
}

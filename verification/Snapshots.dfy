/**
 A sealed instance snapshot (domain/execution/instance_snapshot.go): the plan,
 the frozen parameter scope of every call site, and the environment.
 */
module Snapshots {
  import opened Wrappers
  import opened Text
  import opened Parameters
  import opened Plan
  import opened Indexes

  datatype Entry = Entry(id: string, fragment: string, version: string, values: Scope)

  /** A page element version; `valid` is what the check of its fingerprint decides. */
  datatype NodeSnapshot = NodeSnapshot(element: string, version: string, valid: bool)
  {
    function Ref(): TargetRef { TargetRef(element, version) }
  }

  /** One call site of a run: the root of an entry, or a reference step inside another call. */
  datatype Invocation = Invocation(
    path: string, parent: Option<string>, parentVersion: string, stepId: string,
    fragment: string, version: string, values: Scope, bindings: map<string, Binding>)

  datatype CallKey = CallKey(parent: string, stepId: string)

  datatype Snapshot = Snapshot(
    entries: seq<Entry>, workflows: seq<Workflow>, nodes: seq<NodeSnapshot>,
    references: seq<Resolution>, invocations: seq<Invocation>, environment: Scope)

  // ----- indexes -----

  const WORKFLOW_KEY: Workflow -> string := (w: Workflow) => w.versionId
  const REFERENCE_KEY: Resolution -> EdgeKey := (r: Resolution) => r.Key()
  const NODE_KEY: NodeSnapshot -> TargetRef := (n: NodeSnapshot) => n.Ref()
  const PATH_KEY: Invocation -> string := (i: Invocation) => i.path
  const ENTRY_KEY: Entry -> string := (e: Entry) => e.id

  function GraphOf(s: Snapshot): Graph {
    Graph(IndexBy(s.workflows, WORKFLOW_KEY), IndexBy(s.references, REFERENCE_KEY))
  }

  function NodesOf(s: Snapshot): map<TargetRef, NodeSnapshot> {
    IndexBy(s.nodes, NODE_KEY)
  }

  /** The non-root call sites, keyed by where they are called from. */
  function CallsOf(invocations: seq<Invocation>): map<CallKey, Invocation> {
    if invocations == [] then map[] else
    var calls, last := CallsOf(invocations[..|invocations| - 1]), invocations[|invocations| - 1];
    if last.parent.None? then calls else calls[CallKey(last.parent.value, last.stepId) := last]
  }

  function Roots(s: Snapshot): seq<string> {
    seq(|s.entries|, i requires 0 <= i < |s.entries| => s.entries[i].version)
  }
}

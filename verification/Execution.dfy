/**
 What running a compiled tree means (domain/node/composite.go): a big-step
 function from a host, a state and a parameter scope to the next state and
 whether the run succeeded.
 */
module Execution {
  import opened Wrappers
  import opened Parameters
  import opened Phases

  /** An executable tree. A call's target is the workflow it runs. */
  datatype Node =
    | LeafNode(id: string, leaf: Leaf)
    | RepeatNode(id: string, times: int, children: seq<Node>)
    | WorkflowNode(id: string, steps: seq<Node>, owned: Option<Scope>)
    | CallNode(id: string, target: Node, values: Scope, constraints: map<string, Constraint>)

  datatype Event = Event(node: string, occurrence: nat, phase: Phase)

  /** A node that began, with the parameters its expressions can read. */
  datatype Visit = Visit(node: string, scope: Scope)

  /** Consultations so far, begun occurrences per node, the accepted events, and the visits. */
  datatype State = State(clock: nat, occurrences: map<string, nat>, log: seq<Event>, visits: seq<Visit>)

  const INITIAL := State(0, map[], [], [])

  function Begun(s: State, id: string): nat {
    if id in s.occurrences then s.occurrences[id] else 0
  }

  /** An accepted RUNNING event opens the node's next occurrence. */
  function Opened(s: State, scope: Scope, id: string, clock: nat): State {
    var o := Begun(s, id) + 1;
    State(clock, s.occurrences[id := o], s.log + [Event(id, o, Running)], s.visits + [Visit(id, scope)])
  }

  function Begin(h: Host, s: State, scope: Scope, id: string): (State, bool) {
    if h.accepts(s.clock) then (Opened(s, scope, id, s.clock + 1), true)
    else (s.(clock := s.clock + 1), false)
  }

  function Recorded(s: State, e: Event, clock: nat): State {
    s.(clock := clock, log := s.log + [e])
  }

  /** A container that succeeded records SUCCEEDED; the sink may still refuse. */
  function EndSucceeded(h: Host, s: State, id: string, occurrence: nat): (State, bool) {
    if h.accepts(s.clock) then (Recorded(s, Event(id, occurrence, Succeeded), s.clock + 1), true)
    else (s.(clock := s.clock + 1), false)
  }

  /** A container whose content failed tries once to record its terminal phase. */
  function EndFailed(h: Host, s: State, id: string, occurrence: nat): State {
    var terminal := if h.canceled(s.clock) then Canceled else Failed;
    if h.accepts(s.clock + 1) then Recorded(s, Event(id, occurrence, terminal), s.clock + 2)
    else s.(clock := s.clock + 2)
  }

  function End(h: Host, s: State, id: string, occurrence: nat, ok: bool): (State, bool) {
    if ok then EndSucceeded(h, s, id, occurrence) else (EndFailed(h, s, id, occurrence), false)
  }

  function EventsOf(id: string, occurrence: nat, phases: seq<Phase>): (events: seq<Event>)
    ensures |events| == |phases|
    ensures forall i | 0 <= i < |events| :: events[i] == Event(id, occurrence, phases[i])
  {
    seq(|phases|, i requires 0 <= i < |phases| => Event(id, occurrence, phases[i]))
  }

  function ExecLeaf(h: Host, s: State, scope: Scope, id: string, leaf: Leaf): (State, bool) {
    var script := LeafScript(h, s.clock, leaf, scope);
    if script.phases == [] then (s.(clock := script.clock), false)
    else
      var o := Begun(s, id) + 1;
      (State(script.clock, s.occurrences[id := o], s.log + EventsOf(id, o, script.phases),
             s.visits + [Visit(id, scope)]),
       script.ok)
  }

  predicate EnvName(name: string) {
    "env." <= name
  }

  /** The environment names of a scope; every call passes them on. */
  function EnvPart(scope: Scope): Scope {
    map n | n in scope && EnvName(n) :: scope[n]
  }

  /** Every value has a schema, every schema a value, and each value satisfies its schema. */
  predicate BindingsHold(values: Scope, constraints: map<string, Constraint>) {
    values.Keys == constraints.Keys && forall n | n in values :: constraints[n].Accepts(values[n])
  }

  function CallScope(values: Scope, caller: Scope): Scope {
    values + EnvPart(caller)
  }

  function Exec(h: Host, s: State, scope: Scope, node: Node): (State, bool)
    decreases node, 0, 0
  {
    match node
    case LeafNode(id, leaf) => ExecLeaf(h, s, scope, id, leaf)
    case RepeatNode(id, times, children) =>
      if times < 0 then (s, false) else
      var (s1, begun) := Begin(h, s, scope, id);
      if !begun then (s1, false) else
      var (s2, ok) := ExecTimes(h, s1, scope, children, times);
      End(h, s2, id, Begun(s, id) + 1, ok)
    case WorkflowNode(id, steps, owned) =>
      var inner := if owned.Some? then owned.value else scope;
      var (s1, begun) := Begin(h, s, inner, id);
      if !begun then (s1, false) else
      var (s2, ok) := ExecAll(h, s1, inner, steps);
      End(h, s2, id, Begun(s, id) + 1, ok)
    case CallNode(id, target, values, constraints) =>
      var (s1, begun) := Begin(h, s, scope, id);
      if !begun then (s1, false) else
      var (s2, ok) :=
        if BindingsHold(values, constraints) then Exec(h, s1, CallScope(values, scope), target)
        else (s1, false);
      End(h, s2, id, Begun(s, id) + 1, ok)
  }

  /** Nodes in order, stopping at the first that fails. */
  function ExecAll(h: Host, s: State, scope: Scope, nodes: seq<Node>): (State, bool)
    decreases nodes, 0, 0
  {
    if nodes == [] then (s, true) else
    var (s1, ok) := Exec(h, s, scope, nodes[0]);
    if !ok then (s1, false) else ExecAll(h, s1, scope, nodes[1..])
  }

  /** The node list `n` times over, stopping at the first failure. */
  function ExecTimes(h: Host, s: State, scope: Scope, nodes: seq<Node>, n: nat): (State, bool)
    decreases nodes, 1, n
  {
    if n == 0 then (s, true) else
    var (s1, ok) := ExecAll(h, s, scope, nodes);
    if !ok then (s1, false) else ExecTimes(h, s1, scope, nodes, n - 1)
  }
}

/**
 Where the runs of a plan go: a run begins the steps of the plan written out in
 full, in that order, all of them when it succeeds and no others whatever the
 host does. So the limits a snapshot was sealed under bound its runs.
 */
module Itineraries {
  import opened Wrappers
  import opened Parameters
  import opened Plan
  import opened Expansions
  import opened Phases
  import opened Execution
  import opened Indexes
  import opened Snapshots
  import opened Trees
  import opened Sealing
  import opened Compilation
  import opened Meaning
  import opened Pipeline
  import Codec
  import Budget

  /** The steps a run began, in order; workflow containers are none. */
  function StepsBegun(versions: map<string, string>, metadata: map<string, Meta>, visits: seq<Visit>): seq<StepName> {
    if visits == [] then [] else
    var last := visits[|visits| - 1];
    StepsBegun(versions, metadata, visits[..|visits| - 1]) + NameOf(versions, metadata, last.node)
  }

  function NameOf(versions: map<string, string>, metadata: map<string, Meta>, id: string): seq<StepName> {
    if id in metadata && metadata[id].StepMeta? && metadata[id].callPath in versions
    then [StepName(versions[metadata[id].callPath], metadata[id].stepId)] else []
  }

  /** From one state to the next a run begins these steps, in order, and all of them if it succeeds. */
  ghost predicate Takes(src: Sources, metadata: map<string, Meta>, s: State, s': State, expected: seq<StepName>, ok: bool) {
    var before, after := StepsBegun(src.versions, metadata, s.visits), StepsBegun(src.versions, metadata, s'.visits);
    before <= after <= before + expected && (ok ==> after == before + expected)
  }

  lemma TakesNothing(src: Sources, metadata: map<string, Meta>, s: State, expected: seq<StepName>)
    ensures Takes(src, metadata, s, s, [], true) && Takes(src, metadata, s, s, expected, false)
  {
  }

  lemma TakesThen(src: Sources, metadata: map<string, Meta>, s: State, s1: State, s2: State,
    first: seq<StepName>, second: seq<StepName>, ok: bool)
    requires Takes(src, metadata, s, s1, first, true) && Takes(src, metadata, s1, s2, second, ok)
    ensures Takes(src, metadata, s, s2, first + second, ok)
  {
    var before := StepsBegun(src.versions, metadata, s.visits);
    assert before + first + second == before + (first + second);
    hide StepsBegun;
  }

  lemma TakesPart(src: Sources, metadata: map<string, Meta>, s: State, s1: State, first: seq<StepName>, second: seq<StepName>)
    requires Takes(src, metadata, s, s1, first, false)
    ensures Takes(src, metadata, s, s1, first + second, false)
  {
    var before := StepsBegun(src.versions, metadata, s.visits);
    assert before + first + second == before + (first + second);
    hide StepsBegun;
  }

  lemma TakesEnd(h: Host, src: Sources, metadata: map<string, Meta>, s: State, s1: State, id: string, o: nat,
    expected: seq<StepName>, ok: bool)
    requires Takes(src, metadata, s, s1, expected, ok)
    ensures Takes(src, metadata, s, End(h, s1, id, o, ok).0, expected, End(h, s1, id, o, ok).1)
  {
    hide StepsBegun;
  }

  lemma TakesVisit(src: Sources, metadata: map<string, Meta>, s: State, s1: State, visit: Visit, ok: bool)
    requires s1.visits == s.visits + [visit]
    ensures Takes(src, metadata, s, s1, NameOf(src.versions, metadata, visit.node), ok)
  {
    assert s1.visits[..|s.visits|] == s.visits;
  }

  lemma TakesBegin(h: Host, src: Sources, metadata: map<string, Meta>, s: State, scope: Scope, id: string)
    ensures Takes(src, metadata, s, Begin(h, s, scope, id).0, NameOf(src.versions, metadata, id), Begin(h, s, scope, id).1)
  {
    if Begin(h, s, scope, id).1 {
      TakesVisit(src, metadata, s, Begin(h, s, scope, id).0, Visit(id, scope), true);
    }
    hide StepsBegun;
  }

  lemma TakesLeaf(h: Host, src: Sources, metadata: map<string, Meta>, s: State, scope: Scope, id: string, leaf: Leaf)
    ensures Takes(src, metadata, s, ExecLeaf(h, s, scope, id, leaf).0, NameOf(src.versions, metadata, id),
                  ExecLeaf(h, s, scope, id, leaf).1)
  {
    LeafIsLegal(h, s.clock, leaf, scope);
    hide LeafScript, StepsBegun, NameOf;
    var (s1, ok) := ExecLeaf(h, s, scope, id, leaf);
    if s1.visits != s.visits { TakesVisit(src, metadata, s, s1, Visit(id, scope), ok); }
  }

  /** A container that begins takes its own step and then what its content takes. */
  lemma TakesInside(h: Host, src: Sources, metadata: map<string, Meta>, s: State, scope: Scope, id: string, s2: State,
    inner: seq<StepName>, ok: bool)
    requires Begin(h, s, scope, id).1 && Takes(src, metadata, Begin(h, s, scope, id).0, s2, inner, ok)
    ensures var (end, done) := End(h, s2, id, Begun(s, id) + 1, ok);
            Takes(src, metadata, s, end, NameOf(src.versions, metadata, id) + inner, done)
  {
    hide *;
    var name := NameOf(src.versions, metadata, id);
    TakesBegin(h, src, metadata, s, scope, id);
    TakesThen(src, metadata, s, Begin(h, s, scope, id).0, s2, name, inner, ok);
    TakesEnd(h, src, metadata, s, s2, id, Begun(s, id) + 1, name + inner, ok);
  }

  lemma TakesUnbegun(h: Host, src: Sources, metadata: map<string, Meta>, s: State, scope: Scope, id: string,
    inner: seq<StepName>)
    requires !Begin(h, s, scope, id).1
    ensures Takes(src, metadata, s, Begin(h, s, scope, id).0, NameOf(src.versions, metadata, id) + inner, false)
  {
    hide *;
    TakesBegin(h, src, metadata, s, scope, id);
    TakesPart(src, metadata, s, Begin(h, s, scope, id).0, NameOf(src.versions, metadata, id), inner);
  }

  // ----- nodes -----

  lemma TakesWorkflow(h: Host, src: Sources, metadata: map<string, Meta>, s: State, scope: Scope, node: Node,
    inner: seq<StepName>)
    requires node.WorkflowNode? && node.owned.None? && NameOf(src.versions, metadata, node.id) == []
    requires var s1 := Begin(h, s, scope, node.id).0; var (s2, ok) := ExecAll(h, s1, scope, node.steps);
             Takes(src, metadata, s1, s2, inner, ok)
    ensures Takes(src, metadata, s, Exec(h, s, scope, node).0, inner, Exec(h, s, scope, node).1)
  {
    hide Takes, Begin, End, Begun, ExecAll, NameOf;
    assert [] + inner == inner;
    var (s1, begun) := Begin(h, s, scope, node.id);
    if begun {
      var (s2, ok) := ExecAll(h, s1, scope, node.steps);
      TakesInside(h, src, metadata, s, scope, node.id, s2, inner, ok);
    } else {
      TakesUnbegun(h, src, metadata, s, scope, node.id, inner);
    }
  }

  lemma TakesCall(h: Host, src: Sources, metadata: map<string, Meta>, s: State, scope: Scope, node: Node,
    inner: seq<StepName>)
    requires node.CallNode?
    requires var s1 := Begin(h, s, scope, node.id).0; var (s2, ok) := Exec(h, s1, CallScope(node.values, scope), node.target);
             Takes(src, metadata, s1, s2, inner, ok)
    ensures Takes(src, metadata, s, Exec(h, s, scope, node).0, NameOf(src.versions, metadata, node.id) + inner,
                  Exec(h, s, scope, node).1)
  {
    hide Takes, Begin, End, Begun, NameOf, BindingsHold, CallScope;
    var (s1, begun) := Begin(h, s, scope, node.id);
    if begun {
      TakesNothing(src, metadata, s1, inner);
      var (s2, ok) := if BindingsHold(node.values, node.constraints) then Exec(h, s1, CallScope(node.values, scope), node.target)
                      else (s1, false);
      TakesInside(h, src, metadata, s, scope, node.id, s2, inner, ok);
    } else {
      TakesUnbegun(h, src, metadata, s, scope, node.id, inner);
    }
  }

  lemma TakesRepeat(h: Host, src: Sources, metadata: map<string, Meta>, s: State, scope: Scope, node: Node,
    inner: seq<StepName>)
    requires node.RepeatNode?
    requires node.times >= 0 ==>
      var s1 := Begin(h, s, scope, node.id).0; var (s2, ok) := ExecTimes(h, s1, scope, node.children, node.times);
      Takes(src, metadata, s1, s2, inner, ok)
    ensures Takes(src, metadata, s, Exec(h, s, scope, node).0, NameOf(src.versions, metadata, node.id) + inner,
                  Exec(h, s, scope, node).1)
  {
    hide Takes, Begin, End, Begun, NameOf, ExecTimes;
    TakesNothing(src, metadata, s, NameOf(src.versions, metadata, node.id) + inner);
    if node.times >= 0 {
      var (s1, begun) := Begin(h, s, scope, node.id);
      if begun {
        var (s2, ok) := ExecTimes(h, s1, scope, node.children, node.times);
        TakesInside(h, src, metadata, s, scope, node.id, s2, inner, ok);
      } else {
        TakesUnbegun(h, src, metadata, s, scope, node.id, inner);
      }
    }
  }

  lemma TakesNodes(h: Host, src: Sources, metadata: map<string, Meta>, s: State, scope: Scope, node: Node, rest: seq<Node>,
    first: seq<StepName>, others: seq<StepName>)
    requires var (s1, ok) := Exec(h, s, scope, node);
             && Takes(src, metadata, s, s1, first, ok)
             && Takes(src, metadata, s1, ExecAll(h, s1, scope, rest).0, others, ExecAll(h, s1, scope, rest).1)
    ensures Takes(src, metadata, s, ExecAll(h, s, scope, [node] + rest).0, first + others,
                  ExecAll(h, s, scope, [node] + rest).1)
  {
    hide Takes, Exec;
    assert ([node] + rest)[1..] == rest;
    var (s1, ok) := Exec(h, s, scope, node);
    if ok {
      TakesThen(src, metadata, s, s1, ExecAll(h, s1, scope, rest).0, first, others, ExecAll(h, s1, scope, rest).1);
    } else {
      TakesPart(src, metadata, s, s1, first, others);
    }
  }

  lemma TakesTurns(h: Host, src: Sources, metadata: map<string, Meta>, s: State, scope: Scope, body: seq<Node>, n: nat,
    lines: seq<Line>)
    requires n > 0 ==>
      var (s1, ok) := ExecAll(h, s, scope, body);
      && Takes(src, metadata, s, s1, Names(lines), ok)
      && Takes(src, metadata, s1, ExecTimes(h, s1, scope, body, n - 1).0, Names(Copies(lines, n - 1)),
               ExecTimes(h, s1, scope, body, n - 1).1)
    ensures Takes(src, metadata, s, ExecTimes(h, s, scope, body, n).0, Names(Copies(lines, n)),
                  ExecTimes(h, s, scope, body, n).1)
  {
    hide Takes, ExecAll, Names;
    if n == 0 {
      TakesNothing(src, metadata, s, []);
      NoNames();
    } else {
      NamesAppend(lines, Copies(lines, n - 1));
      var (s1, ok) := ExecAll(h, s, scope, body);
      if ok {
        TakesThen(src, metadata, s, s1, ExecTimes(h, s1, scope, body, n - 1).0, Names(lines), Names(Copies(lines, n - 1)),
                  ExecTimes(h, s1, scope, body, n - 1).1);
      } else {
        TakesPart(src, metadata, s, s1, Names(lines), Names(Copies(lines, n - 1)));
      }
    }
  }

  lemma NoNames()
    ensures Names([]) == []
  {
  }

  // ----- the trees of a plan -----

  /** `metadata` describes the tree of version `v` at the call site that `path` leads to. */
  ghost predicate Described(src: Sources, rank: map<string, nat>, metadata: map<string, Meta>, v: string,
    path: seq<string>, site: string)
  {
    At(src, rank, v, site) && SiteOf(src, path) == Some(site) && Truthful(src, metadata)
  }

  lemma StepIsNamed(src: Sources, rank: map<string, nat>, metadata: map<string, Meta>, v: string, path: seq<string>,
    site: string, id: string)
    requires Described(src, rank, metadata, v, path, site) && Codec.StepRuntimeId(path, id) in metadata
    ensures NameOf(src.versions, metadata, Codec.StepRuntimeId(path, id)) == [StepName(v, id)]
  {
    StepIsDescribed(src, metadata, path, site, id);
  }

  lemma WorkflowIsUnnamed(src: Sources, rank: map<string, nat>, metadata: map<string, Meta>, v: string,
    path: seq<string>, site: string)
    requires Described(src, rank, metadata, v, path, site)
    ensures NameOf(src.versions, metadata, Codec.WorkflowRuntimeId(path)) == []
  {
    if Codec.WorkflowRuntimeId(path) in metadata { WorkflowIsDescribed(src, metadata, path, v, site); }
  }

  /** A step list falls into its first step and the others, and so do its tree and its expansion. */
  lemma StepsParts(src: Sources, rank: map<string, nat>, v: string, path: seq<string>, site: string, steps: seq<Step>)
    requires steps != [] && Part(src, rank, v, site, RefIds(steps)) && Within(src.g, rank, v, steps)
    ensures Part(src, rank, v, site, RefIdsOf(steps[0])) && StepWithin(src.g, rank, v, steps[0])
    ensures Part(src, rank, v, site, RefIds(steps[1..])) && Within(src.g, rank, v, steps[1..])
    ensures var node, rest := StepTree(src, rank, v, path, site, steps[0]), StepsTree(src, rank, v, path, site, steps[1..]);
            && StepsTree(src, rank, v, path, site, steps) == [node] + rest
            && IdsOfAll([node] + rest) == Ids(node) + IdsOfAll(rest)
    ensures Names(StepsLines(src.g, rank, v, steps))
         == Names(StepLines(src.g, rank, v, steps[0])) + Names(StepsLines(src.g, rank, v, steps[1..]))
  {
    var node, rest := StepTree(src, rank, v, path, site, steps[0]), StepsTree(src, rank, v, path, site, steps[1..]);
    assert ([node] + rest)[1..] == rest;
    NamesAppend(StepLines(src.g, rank, v, steps[0]), StepsLines(src.g, rank, v, steps[1..]));
    hide StepTree, StepLines, Names;
  }

  /** A step comes first in its own expansion. */
  lemma StepNames(v: string, step: Step, rest: seq<Line>)
    ensures Names([StepLine(v, step)] + rest) == [StepName(v, step.id)] + Names(rest)
  {
    assert ([StepLine(v, step)] + rest)[1..] == rest;
  }

  lemma {:induction false} StepsTake(h: Host, src: Sources, rank: map<string, nat>, metadata: map<string, Meta>,
    s: State, scope: Scope, v: string, path: seq<string>, site: string, steps: seq<Step>)
    requires Described(src, rank, metadata, v, path, site)
    requires Part(src, rank, v, site, RefIds(steps)) && Within(src.g, rank, v, steps)
    requires IdsOfAll(StepsTree(src, rank, v, path, site, steps)) <= metadata.Keys
    ensures var (end, ok) := ExecAll(h, s, scope, StepsTree(src, rank, v, path, site, steps));
            Takes(src, metadata, s, end, Names(StepsLines(src.g, rank, v, steps)), ok)
    decreases rank[v], steps, 0, 0
  {
    if steps != [] {
      StepsParts(src, rank, v, path, site, steps);
      hide *;
      var node, rest := StepTree(src, rank, v, path, site, steps[0]), StepsTree(src, rank, v, path, site, steps[1..]);
      StepTakes(h, src, rank, metadata, s, scope, v, path, site, steps[0]);
      StepsTake(h, src, rank, metadata, Exec(h, s, scope, node).0, scope, v, path, site, steps[1..]);
      TakesNodes(h, src, metadata, s, scope, node, rest,
        Names(StepLines(src.g, rank, v, steps[0])), Names(StepsLines(src.g, rank, v, steps[1..])));
    } else {
      TakesNothing(src, metadata, s, []);
    }
  }

  lemma {:induction false} TimesTake(h: Host, src: Sources, rank: map<string, nat>, metadata: map<string, Meta>,
    s: State, scope: Scope, v: string, path: seq<string>, site: string, steps: seq<Step>, n: nat)
    requires Described(src, rank, metadata, v, path, site)
    requires Part(src, rank, v, site, RefIds(steps)) && Within(src.g, rank, v, steps)
    requires IdsOfAll(StepsTree(src, rank, v, path, site, steps)) <= metadata.Keys
    ensures var (end, ok) := ExecTimes(h, s, scope, StepsTree(src, rank, v, path, site, steps), n);
            Takes(src, metadata, s, end, Names(Copies(StepsLines(src.g, rank, v, steps), n)), ok)
    decreases rank[v], steps, 1, n
  {
    hide *;
    var body := StepsTree(src, rank, v, path, site, steps);
    if n > 0 {
      StepsTake(h, src, rank, metadata, s, scope, v, path, site, steps);
      TimesTake(h, src, rank, metadata, ExecAll(h, s, scope, body).0, scope, v, path, site, steps, n - 1);
    }
    TakesTurns(h, src, metadata, s, scope, body, n, StepsLines(src.g, rank, v, steps));
  }

  /** One step of any kind begins itself and what it stands for. */
  lemma {:induction false} StepTakes(h: Host, src: Sources, rank: map<string, nat>, metadata: map<string, Meta>,
    s: State, scope: Scope, v: string, path: seq<string>, site: string, step: Step)
    requires Described(src, rank, metadata, v, path, site)
    requires Part(src, rank, v, site, RefIdsOf(step)) && StepWithin(src.g, rank, v, step)
    requires Ids(StepTree(src, rank, v, path, site, step)) <= metadata.Keys
    ensures var (end, ok) := Exec(h, s, scope, StepTree(src, rank, v, path, site, step));
            Takes(src, metadata, s, end, Names(StepLines(src.g, rank, v, step)), ok)
    decreases rank[v], step, 1, 0
  {
    var id := Codec.StepRuntimeId(path, step.id);
    var node := StepTree(src, rank, v, path, site, step);
    assert id in Ids(node);
    StepIsNamed(src, rank, metadata, v, path, site, step.id);
    if step.RepeatStep? {
      RepeatTakes(h, src, rank, metadata, s, scope, v, path, site, step);
    } else if step.ReferenceStep? {
      ReferenceTakes(h, src, rank, metadata, s, scope, v, path, site, step);
    } else {
      LeafStepNames(src.g, rank, v, step);
      TakesLeaf(h, src, metadata, s, scope, id, node.leaf);
      hide Part, StepWithin, Described, Takes, ExecLeaf, NameOf, StepLines;
    }
  }

  /** A step without a body is the only step of its expansion. */
  lemma LeafStepNames(g: Graph, rank: map<string, nat>, v: string, step: Step)
    requires StepWithin(g, rank, v, step) && !step.RepeatStep? && !step.ReferenceStep?
    ensures Names(StepLines(g, rank, v, step)) == [StepName(v, step.id)]
  {
    if step.GroupStep? {
      BranchesAreNoSteps(v, step.branches);
      StepNames(v, step, BranchLines(v, step.branches));
    } else {
      StepNames(v, step, []);
    }
  }

  lemma {:induction false} RepeatTakes(h: Host, src: Sources, rank: map<string, nat>, metadata: map<string, Meta>,
    s: State, scope: Scope, v: string, path: seq<string>, site: string, step: Step)
    requires step.RepeatStep? && Described(src, rank, metadata, v, path, site)
    requires Part(src, rank, v, site, RefIdsOf(step)) && StepWithin(src.g, rank, v, step)
    requires Ids(StepTree(src, rank, v, path, site, step)) <= metadata.Keys
    ensures var (end, ok) := Exec(h, s, scope, StepTree(src, rank, v, path, site, step));
            Takes(src, metadata, s, end, Names(StepLines(src.g, rank, v, step)), ok)
    decreases rank[v], step, 0, 0
  {
    var id, n := Codec.StepRuntimeId(path, step.id), step.times;
    var body, lines := StepsTree(src, rank, v, path, site, step.children), StepsLines(src.g, rank, v, step.children);
    assert StepTree(src, rank, v, path, site, step) == RepeatNode(id, n, body);
    assert Ids(RepeatNode(id, n, body)) == {id} + IdsOfAll(body);
    assert Within(src.g, rank, v, step.children) && Part(src, rank, v, site, RefIds(step.children));
    var copies := if n > 0 then Copies(lines, n) else [];
    assert StepLines(src.g, rank, v, step) == [StepLine(v, step)] + copies;
    assert n == 0 ==> Copies(lines, n) == [];
    StepNames(v, step, copies);
    StepIsNamed(src, rank, metadata, v, path, site, step.id);
    hide *;
    if n >= 0 {
      TimesTake(h, src, rank, metadata, Begin(h, s, scope, id).0, scope, v, path, site, step.children, n);
    }
    TakesRepeat(h, src, metadata, s, scope, RepeatNode(id, n, body), Names(copies));
  }

  lemma {:induction false} ReferenceTakes(h: Host, src: Sources, rank: map<string, nat>, metadata: map<string, Meta>,
    s: State, scope: Scope, v: string, path: seq<string>, site: string, step: Step)
    requires step.ReferenceStep? && Described(src, rank, metadata, v, path, site)
    requires Part(src, rank, v, site, RefIdsOf(step)) && StepWithin(src.g, rank, v, step)
    requires Ids(StepTree(src, rank, v, path, site, step)) <= metadata.Keys
    ensures var (end, ok) := Exec(h, s, scope, StepTree(src, rank, v, path, site, step));
            Takes(src, metadata, s, end, Names(StepLines(src.g, rank, v, step)), ok)
    decreases rank[v], step, 0, 0
  {
    PartCalls(src, rank, v, site, step.id);
    var id := Codec.StepRuntimeId(path, step.id);
    var t, call := Target(src.g, v, step.id), src.calls[CallKey(site, step.id)];
    var target, lines := WorkflowTree(src, rank, t, path + [step.id, t], call.path), WorkflowLines(src.g, rank, t);
    var node := CallNode(id, target, call.values, Schemas(src.g.workflows[t].parameters));
    assert StepTree(src, rank, v, path, site, step) == node && Ids(node) == {id} + Ids(target);
    assert StepLines(src.g, rank, v, step) == [StepLine(v, step)] + lines;
    StepNames(v, step, lines);
    StepIsNamed(src, rank, metadata, v, path, site, step.id);
    SiteOfCall(src, path, site, step.id, t);
    var (s1, inner) := (Begin(h, s, scope, id).0, CallScope(call.values, scope));
    WorkflowTakes(h, src, rank, metadata, s1, inner, t, path + [step.id, t], call.path);
    hide *;
    TakesCall(h, src, metadata, s, scope, node, Names(lines));
  }

  lemma {:induction false} WorkflowTakes(h: Host, src: Sources, rank: map<string, nat>, metadata: map<string, Meta>,
    s: State, scope: Scope, v: string, path: seq<string>, site: string)
    requires Described(src, rank, metadata, v, path, site)
    requires Ids(WorkflowTree(src, rank, v, path, site)) <= metadata.Keys
    ensures var (end, ok) := Exec(h, s, scope, WorkflowTree(src, rank, v, path, site));
            Takes(src, metadata, s, end, Names(WorkflowLines(src.g, rank, v)), ok)
    decreases rank[v], src.g.workflows[v].steps, 2, 0
  {
    var id, steps := Codec.WorkflowRuntimeId(path), src.g.workflows[v].steps;
    var body := StepsTree(src, rank, v, path, site, steps);
    assert WorkflowTree(src, rank, v, path, site) == WorkflowNode(id, body, None);
    assert Ids(WorkflowNode(id, body, None)) == {id} + IdsOfAll(body);
    assert WorkflowLines(src.g, rank, v) == StepsLines(src.g, rank, v, steps);
    WorkflowIsUnnamed(src, rank, metadata, v, path, site);
    StepsTake(h, src, rank, metadata, Begin(h, s, scope, id).0, scope, v, path, site, steps);
    hide *;
    TakesWorkflow(h, src, metadata, s, scope, WorkflowNode(id, body, None), Names(StepsLines(src.g, rank, v, steps)));
  }

  // ----- programs -----

  /** The steps one run of a compiled entry begins. */
  function ProgramBegins(h: Host, s: Snapshot, c: CompiledEntry): seq<StepName> {
    StepsBegun(VersionsOf(Sites(s)), c.metadata, Exec(h, INITIAL, map[], c.root).0.visits)
  }

  /**
   Whatever the host does, and whatever leaks: the program of an entry begins the
   steps of the entry's workflow written out in full, one after the other, none
   skipped and none added, and all of them if it succeeds.
   */
  lemma ProgramTakesItinerary(h: Host, s: Snapshot, rank: map<string, nat>, e: Entry, c: CompiledEntry)
    requires Sealed(s, rank) && e in s.entries && Compiled(s, rank, e, c)
    ensures e.version in rank
    ensures var itinerary := Names(WorkflowLines(GraphOf(s), rank, e.version));
            && ProgramBegins(h, s, c) <= itinerary
            && (Exec(h, INITIAL, map[], c.root).1 ==> ProgramBegins(h, s, c) == itinerary)
  {
    var src, scope := SourcesOf(s), e.values + Overlay(s.environment);
    CompiledRuns(h, s, rank, e, c);
    RootPath(src, e.id);
    assert StepsBegun(src.versions, c.metadata, []) == [];
    WorkflowTakes(h, src, rank, c.metadata, INITIAL, scope, e.version, [e.id], e.id);
    var itinerary := Names(WorkflowLines(GraphOf(s), rank, e.version));
    assert [] + itinerary == itinerary;
    hide Exec, WorkflowTree, StepsBegun, At, Truthful, WorkflowLines, Names, Ids;
  }

  /** The steps begun are those of some first part of the expansion, which waits no longer than the whole. */
  lemma {:induction false} BegunIsPart(begun: seq<StepName>, lines: seq<Line>) returns (part: seq<Line>)
    requires begun <= Names(lines)
    ensures part <= lines && Names(part) == begun && |begun| <= |lines|
    ensures TotalWait(part) <= TotalWait(lines)
  {
    if begun == [] {
      part := [];
    } else {
      var head := lines[0];
      var rest: seq<Line>;
      if head.StepLine? {
        assert Names(lines) == [StepName(head.version, head.step.id)] + Names(lines[1..]);
        rest := BegunIsPart(begun[1..], lines[1..]);
        assert begun == [begun[0]] + begun[1..];
      } else {
        assert Names(lines) == Names(lines[1..]);
        rest := BegunIsPart(begun, lines[1..]);
      }
      part := [head] + rest;
      assert part[1..] == rest && lines == [head] + lines[1..];
    }
  }

  /** What a run got through is a first part of the expansion; what was declared for it to wait is within the whole. */
  lemma ProgramCoversPart(h: Host, s: Snapshot, rank: map<string, nat>, e: Entry, c: CompiledEntry) returns (part: seq<Line>)
    requires Sealed(s, rank) && e in s.entries && Compiled(s, rank, e, c)
    ensures e.version in rank
    ensures part <= WorkflowLines(GraphOf(s), rank, e.version) && Names(part) == ProgramBegins(h, s, c)
    ensures TotalWait(part) <= TotalWait(WorkflowLines(GraphOf(s), rank, e.version))
  {
    ProgramTakesItinerary(h, s, rank, e, c);
    hide *;
    part := BegunIsPart(ProgramBegins(h, s, c), WorkflowLines(GraphOf(s), rank, e.version));
  }

  /** How many steps are begun when each program from the `i`th on is run once, each under its own host. */
  ghost function RunsBegin(hosts: nat -> Host, s: Snapshot, compiled: seq<CompiledEntry>, i: nat): nat
    requires i <= |compiled|
    decreases |compiled| - i
  {
    if i == |compiled| then 0
    else |ProgramBegins(hosts(i), s, compiled[i])| + RunsBegin(hosts, s, compiled, i + 1)
  }

  /** The entries from the `i`th on, and their expansions. */
  lemma RootsFrom(s: Snapshot, rank: map<string, nat>, compiled: seq<CompiledEntry>, i: nat)
    requires Sealed(s, rank) && AllCompiled(s, rank, compiled) && i <= |compiled|
    ensures |compiled| == |s.entries| && Closed(GraphOf(s), rank) && forall v | v in Roots(s)[i..] :: v in rank
    ensures i < |compiled| ==>
      && Compiled(s, rank, s.entries[i], compiled[i]) && s.entries[i].version in rank
      && (forall v | v in Roots(s)[i + 1..] :: v in rank)
      && PlanLines(GraphOf(s), rank, Roots(s)[i..])
           == WorkflowLines(GraphOf(s), rank, s.entries[i].version) + PlanLines(GraphOf(s), rank, Roots(s)[i + 1..])
  {
    hide CallsOk, Compiled, Closed, WorkflowLines;
    if i < |compiled| {
      assert Roots(s)[i] == s.entries[i].version;
      assert Roots(s)[i..][1..] == Roots(s)[i + 1..];
    }
  }

  lemma ProgramWithinExpansion(h: Host, s: Snapshot, rank: map<string, nat>, e: Entry, c: CompiledEntry)
    requires Sealed(s, rank) && e in s.entries && Compiled(s, rank, e, c)
    ensures e.version in rank && |ProgramBegins(h, s, c)| <= |WorkflowLines(GraphOf(s), rank, e.version)|
  {
    ProgramTakesItinerary(h, s, rank, e, c);
    hide *;
    NamesAreFewer(WorkflowLines(GraphOf(s), rank, e.version));
  }

  /** Whatever the hosts do, the runs of all entries together begin no more steps than the plan has lines. */
  lemma {:induction false} RunsWithinExpansion(hosts: nat -> Host, s: Snapshot, rank: map<string, nat>,
    compiled: seq<CompiledEntry>, i: nat)
    requires Sealed(s, rank) && AllCompiled(s, rank, compiled) && i <= |compiled|
    ensures forall v | v in Roots(s)[i..] :: v in rank
    ensures RunsBegin(hosts, s, compiled, i) <= |PlanLines(GraphOf(s), rank, Roots(s)[i..])|
    decreases |compiled| - i
  {
    RootsFrom(s, rank, compiled, i);
    if i < |compiled| {
      hide AllCompiled, Compiled, Sealed, PlanLines, ProgramBegins, WorkflowLines, Closed;
      ProgramWithinExpansion(hosts(i), s, rank, s.entries[i], compiled[i]);
      RunsWithinExpansion(hosts, s, rank, compiled, i + 1);
    } else {
      hide AllCompiled, Compiled, Sealed, PlanLines, ProgramBegins, WorkflowLines, Closed;
    }
  }

  /** So the limits a snapshot was sealed under bound every run of its programs. */
  lemma RunsStayWithinBudget(hosts: nat -> Host, s: Snapshot, rank: map<string, nat>, compiled: seq<CompiledEntry>)
    requires Sealed(s, rank) && AllCompiled(s, rank, compiled)
    ensures RunsBegin(hosts, s, compiled, 0) <= 1_000_000
    ensures TotalWait(PlanLines(GraphOf(s), rank, Roots(s))) <= 24 * 60 * 60 * 1000
  {
    RunsWithinExpansion(hosts, s, rank, compiled, 0);
    assert Roots(s)[0..] == Roots(s);
    Budget.TotalMeasures(GraphOf(s), rank, Roots(s));
    hide Compiled, RunsBegin, CallsOk, PlanLines, TotalWait, Budget.TotalPrice, Budget.Measures;
  }
}

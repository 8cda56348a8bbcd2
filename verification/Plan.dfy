/**
 The execution plan (domain/execution/plan.go): workflows made of steps, the
 references between them, and the graph those references form.
 */
module Plan {
  import opened Wrappers
  import opened Parameters

  /** An exact version of a stable page element. */
  datatype TargetRef = TargetRef(element: string, version: string)

  datatype ActionKind = Click | Input | Select | Hover | Navigate | Press | Noop | Extract

  datatype WaitKind = Sleep | ElementPresent | ElementVisible | ElementInvisible | NetworkIdle
  {
    predicate SeeksElement() {
      ElementPresent? || ElementVisible? || ElementInvisible?
    }
  }

  /** A member of a validation group; it waits as long as its group does. */
  datatype Member = Member(id: string, target: TargetRef, maxWaitMs: int)

  datatype Branch = Branch(id: string, members: seq<Member>)

  /** A plan step. Each kind carries just the fields its validated shape allows. */
  datatype Step =
    | ActionStep(id: string, action: ActionKind, target: Option<TargetRef>, optional: bool)
    | WaitStep(id: string, wait: WaitKind, target: Option<TargetRef>, waitMs: int)
    | ValidationStep(id: string, assertion: TargetRef, maxWaitMs: int)
    | GroupStep(id: string, branches: seq<Branch>, maxWaitMs: int)
    | RepeatStep(id: string, times: int, children: seq<Step>)
    | ReferenceStep(id: string, fragment: string, version: string, bindings: map<string, Binding>)

  datatype Workflow = Workflow(
    id: string, versionId: string, fragment: string, parameters: seq<Definition>, steps: seq<Step>)

  /** A reference step, named by the workflow version that contains it. */
  datatype EdgeKey = EdgeKey(parent: string, stepId: string)

  datatype Resolution = Resolution(parent: string, stepId: string, fragment: string, version: string)
  {
    function Key(): EdgeKey { EdgeKey(parent, stepId) }
  }

  datatype Graph = Graph(workflows: map<string, Workflow>, resolutions: map<EdgeKey, Resolution>)

  // ----- reference steps -----

  /** The reference steps nested anywhere in a step list. */
  function RefIds(steps: seq<Step>): set<string> {
    if steps == [] then {} else RefIdsOf(steps[0]) + RefIds(steps[1..])
  }

  function RefIdsOf(step: Step): set<string> {
    match step
    case ReferenceStep(id, _, _, _) => {id}
    case RepeatStep(_, _, children) => RefIds(children)
    case _ => {}
  }

  /** The same with multiplicities: a reference step that occurs twice counts twice. */
  function RefBag(steps: seq<Step>): multiset<string> {
    if steps == [] then multiset{} else RefBagOf(steps[0]) + RefBag(steps[1..])
  }

  function RefBagOf(step: Step): multiset<string> {
    match step
    case ReferenceStep(id, _, _, _) => multiset{id}
    case RepeatStep(_, _, children) => RefBag(children)
    case _ => multiset{}
  }

  /** No two reference steps share an identity. */
  ghost predicate UniqueRefs(bag: multiset<string>) {
    forall id :: bag[id] <= 1
  }

  lemma {:induction false} RefBagHolds(steps: seq<Step>, id: string)
    ensures id in RefIds(steps) <==> id in RefBag(steps)
    decreases steps, 0
  {
    if steps != [] {
      RefBagOfHolds(steps[0], id);
      RefBagHolds(steps[1..], id);
    }
  }

  lemma {:induction false} RefBagOfHolds(step: Step, id: string)
    ensures id in RefIdsOf(step) <==> id in RefBagOf(step)
    decreases step, 1
  {
    if step.RepeatStep? { RefBagHolds(step.children, id); }
  }

  lemma RefBagCons(step: Step, rest: seq<Step>)
    ensures RefBag([step] + rest) == RefBagOf(step) + RefBag(rest)
  {
    assert ([step] + rest)[1..] == rest;
  }

  lemma {:induction false} RefBagAppend(a: seq<Step>, b: seq<Step>)
    ensures RefBag(a + b) == RefBag(a) + RefBag(b)
  {
    if a == [] {
      assert a + b == b;
    } else {
      var rest := a[1..];
      RefBagAppend(rest, b);
      RefBagCons(a[0], rest);
      RefBagCons(a[0], rest + b);
      BagsAssociate(RefBagOf(a[0]), RefBag(rest), RefBag(b));
      hide *;
      assert a == [a[0]] + rest && a + b == [a[0]] + (rest + b);
    }
  }

  lemma BagsAssociate(x: multiset<string>, y: multiset<string>, z: multiset<string>)
    ensures x + (y + z) == (x + y) + z
  {
  }

  lemma {:induction false} RefIdsAppend(a: seq<Step>, b: seq<Step>)
    ensures RefIds(a + b) == RefIds(a) + RefIds(b)
  {
    if a == [] {
      assert a + b == b;
    } else {
      RefIdsAppend(a[1..], b);
      assert (a + b)[1..] == a[1..] + b;
    }
  }

  // ----- the reference graph -----

  /** The steps of a version; a version the plan does not hold has none. */
  function StepsOf(g: Graph, v: string): seq<Step> {
    if v in g.workflows then g.workflows[v].steps else []
  }

  /** The version a reference step of `v` resolves to. */
  function Targets(g: Graph, v: string, ids: set<string>): set<string> {
    set id | id in ids && EdgeKey(v, id) in g.resolutions :: g.resolutions[EdgeKey(v, id)].version
  }

  function Successors(g: Graph, v: string): set<string> {
    Targets(g, v, RefIds(StepsOf(g, v)))
  }

  /** A chain of versions, each referencing the next. */
  ghost predicate Walk(g: Graph, p: seq<string>) {
    p != [] && forall i | 0 < i < |p| :: p[i] in Successors(g, p[i - 1])
  }

  ghost predicate WalkBetween(g: Graph, p: seq<string>, v: string, w: string) {
    Walk(g, p) && p[0] == v && p[|p| - 1] == w
  }

  ghost predicate Reachable(g: Graph, roots: seq<string>, w: string) {
    exists p :: Walk(g, p) && p[0] in roots && p[|p| - 1] == w
  }

  /** `rank` strictly decreases along every resolved reference of the versions it covers. */
  ghost predicate Ranked(g: Graph, rank: map<string, nat>) {
    forall v, w | v in rank && w in Successors(g, v) :: w in rank && rank[w] < rank[v]
  }

  /** No chain of references from a root ever comes back to a version it has left. */
  ghost predicate Acyclic(g: Graph, roots: seq<string>) {
    exists rank: map<string, nat> :: Ranked(g, rank) && forall v | v in roots :: v in rank
  }

  /** Ranks fall along walks. */
  lemma {:induction false} RankFalls(g: Graph, rank: map<string, nat>, p: seq<string>)
    requires Ranked(g, rank) && Walk(g, p) && p[0] in rank
    ensures p[|p| - 1] in rank
    ensures |p| > 1 ==> rank[p[|p| - 1]] < rank[p[0]]
  {
    if |p| > 1 {
      var init := p[..|p| - 1];
      assert forall i | 0 < i < |init| :: init[i] == p[i];
      RankFalls(g, rank, init);
      assert p[|p| - 1] in Successors(g, p[|p| - 2]);
    }
  }

  /** An acyclic graph really has no reachable cycle. */
  lemma AcyclicHasNoCycle(g: Graph, roots: seq<string>, v: string, p: seq<string>)
    requires Acyclic(g, roots) && Reachable(g, roots, v) && WalkBetween(g, p, v, v)
    ensures |p| == 1
  {
    var rank: map<string, nat> :| Ranked(g, rank) && forall r | r in roots :: r in rank;
    var q :| Walk(g, q) && q[0] in roots && q[|q| - 1] == v;
    RankFalls(g, rank, q);
    RankFalls(g, rank, p);
  }

  // ----- resolved plans -----

  /**
   Every reference of the covered versions is resolved to a covered version of
   smaller rank, and every covered version is held by the plan.
   */
  ghost predicate Closed(g: Graph, rank: map<string, nat>) {
    forall v | v in rank :: v in g.workflows && ResolvedIn(g, rank, v, RefIds(g.workflows[v].steps))
  }

  ghost predicate ResolvedIn(g: Graph, rank: map<string, nat>, v: string, ids: set<string>)
    requires v in rank
  {
    forall id | id in ids :: Resolves(g, rank, v, id)
  }

  ghost predicate Resolves(g: Graph, rank: map<string, nat>, v: string, id: string)
    requires v in rank
  {
    && EdgeKey(v, id) in g.resolutions
    && Target(g, v, id) in rank
    && rank[Target(g, v, id)] < rank[v]
  }

  function Target(g: Graph, v: string, id: string): string
    requires EdgeKey(v, id) in g.resolutions
  {
    g.resolutions[EdgeKey(v, id)].version
  }

  /** `steps` is part of the version `v` of a resolved plan. */
  ghost predicate Within(g: Graph, rank: map<string, nat>, v: string, steps: seq<Step>) {
    Closed(g, rank) && v in rank && ResolvedIn(g, rank, v, RefIds(steps))
  }

  ghost predicate StepWithin(g: Graph, rank: map<string, nat>, v: string, step: Step) {
    Closed(g, rank) && v in rank && ResolvedIn(g, rank, v, RefIdsOf(step))
  }

  // ----- step shape -----

  const MAX_WAIT_MS: int := 60_000
  const MAX_REPEAT_COUNT: int := 1_000

  predicate WaitInRange(ms: int) {
    0 <= ms <= MAX_WAIT_MS
  }

  predicate MembersInRange(members: seq<Member>) {
    forall m | m in members :: WaitInRange(m.maxWaitMs)
  }

  predicate BranchesInRange(branches: seq<Branch>) {
    forall b | b in branches :: MembersInRange(b.members)
  }

  /** The numeric bounds of a validated step: repeat counts and waits. */
  predicate Shaped(steps: seq<Step>) {
    steps == [] || (ShapedStep(steps[0]) && Shaped(steps[1..]))
  }

  predicate ShapedStep(step: Step) {
    match step
    case WaitStep(_, wait, target, ms) => WaitInRange(ms) && (wait.SeeksElement() ==> target.Some?)
    case ValidationStep(_, _, ms) => WaitInRange(ms)
    case GroupStep(_, branches, ms) =>
      WaitInRange(ms) && BranchesInRange(branches)
    case RepeatStep(_, times, children) => 1 <= times <= MAX_REPEAT_COUNT && Shaped(children)
    case _ => true
  }

  /** Every version that is ranked keeps the numeric bounds. */
  ghost predicate AllShaped(g: Graph, rank: map<string, nat>) {
    forall v | v in rank :: Shaped(StepsOf(g, v))
  }
}

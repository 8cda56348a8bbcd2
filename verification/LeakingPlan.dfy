/**
 A plan whose program departs from it: the called workflow presses a key whose
 text may name `env.home`, a parameter of its caller that no environment defines.
 The runtime shows it to the called workflow all the same
 (domain/node/composite.go:306-310), where its own plan leaves it undefined.
 */
module LeakingPlan {
  import opened Wrappers
  import opened Text
  import opened Parameters
  import opened Plan
  import opened Indexes
  import opened Snapshots
  import opened Trees
  import opened Sealing
  import opened Execution
  import opened Compilation
  import opened Meaning
  import opened Pipeline
  import opened Leaks
  import Budget
  import Codec

  const HOME: Scope := map["env.home" := BooleanValue(true)]
  const CALL: Step := ReferenceStep("r", "called", "v2", map[])
  const PRESS: Step := ActionStep("p", Press, None, false)
  const CALLER: Workflow := Workflow("", "v1", "caller", [Definition("env.home", BooleanType, true, None, [])], [CALL])
  const CALLED: Workflow := Workflow("", "v2", "called", [], [PRESS])
  const EDGE: Resolution := Resolution("v1", "r", "called", "v2")
  const ROOT: Invocation := Invocation("e", None, "", "", "caller", "v1", HOME, map[])
  const CHILD: Invocation := Invocation("e/1:r", Some("e"), "v1", "r", "called", "v2", map[], map[])
  const ENTRY: Entry := Entry("e", "caller", "v1", HOME)
  const LEAKING: Snapshot := Snapshot([ENTRY], [CALLER, CALLED], [], [EDGE], [ROOT, CHILD], map[])
  const RANK: map<string, nat> := map["v1" := 1, "v2" := 0]

  lemma IndexOne<K, V>(a: V, key: V -> K)
    ensures IndexBy([a], key) == map[key(a) := a]
  {
    assert [a][..0] == [];
  }

  lemma IndexTwo<K, V>(a: V, b: V, key: V -> K)
    ensures IndexBy([a, b], key) == map[key(a) := a][key(b) := b]
  {
    IndexOne(a, key);
    assert [a, b][..1] == [a];
  }

  lemma Graphs()
    ensures GraphOf(LEAKING).workflows == map["v1" := CALLER, "v2" := CALLED]
    ensures GraphOf(LEAKING).resolutions == map[EdgeKey("v1", "r") := EDGE]
    ensures Sites(LEAKING) == map["e" := ROOT, "e/1:r" := CHILD]
    ensures IndexBy(LEAKING.entries, ENTRY_KEY) == map["e" := ENTRY]
    ensures NodesOf(LEAKING) == map[] && Roots(LEAKING) == ["v1"]
  {
    IndexTwo(CALLER, CALLED, WORKFLOW_KEY);
    IndexOne(EDGE, REFERENCE_KEY);
    IndexTwo(ROOT, CHILD, PATH_KEY);
    IndexOne(ENTRY, ENTRY_KEY);
  }

  lemma References()
    ensures RefIds([CALL]) == {"r"} && RefIds([PRESS]) == {}
    ensures UniqueRefs(RefBag([CALL])) && UniqueRefs(RefBag([PRESS]))
    ensures Shaped([CALL]) && Shaped([PRESS])
  {
    assert [CALL][1..] == [] && [PRESS][1..] == [];
  }

  lemma Ranks()
    ensures Closed(GraphOf(LEAKING), RANK)
  {
    Graphs();
    References();
  }

  /** The price of a workflow of one step is the price of the step. */
  lemma PriceOfOne(g: Graph, v: string, step: Step)
    requires Closed(g, RANK) && v in RANK && g.workflows[v].steps == [step]
    ensures StepWithin(g, RANK, v, step)
    ensures Budget.WorkflowPrice(g, RANK, v) == Budget.StepPrice(g, RANK, v, step)
  {
    assert [step][1..] == [];
    assert RefIds([step]) == RefIdsOf(step) + RefIds([]);
    assert Within(g, RANK, v, [step]);
    assert Budget.StepsPrice(g, RANK, v, []) == Budget.FREE;
    assert Budget.StepsPrice(g, RANK, v, [step]) == Budget.StepPrice(g, RANK, v, step).Plus(Budget.FREE);
  }

  lemma Prices()
    ensures Closed(GraphOf(LEAKING), RANK) && "v1" in RANK
    ensures Budget.TotalPrice(GraphOf(LEAKING), RANK, ["v1"]) == Budget.Price(2, 0)
  {
    Graphs();
    Ranks();
    var g := GraphOf(LEAKING);
    PriceOfOne(g, "v2", PRESS);
    assert Budget.StepPrice(g, RANK, "v2", PRESS) == Budget.Price(1, 0);
    PriceOfOne(g, "v1", CALL);
    assert Target(g, "v1", "r") == "v2" && Resolves(g, RANK, "v1", "r");
    assert Budget.StepPrice(g, RANK, "v1", CALL) == Budget.Price(1, 0).Plus(Budget.WorkflowPrice(g, RANK, "v2"));
    assert ["v1"][1..] == [];
    assert Budget.TotalPrice(g, RANK, []) == Budget.FREE;
  }

  lemma WorkflowsAreOk()
    ensures WorkflowOk(CALLER) && WorkflowOk(CALLED)
    ensures ValuesFit(CALLER.parameters, HOME) && ValuesFit(CALLED.parameters, map[])
  {
    References();
    assert CALLER.parameters[0].name == "env.home" && "env.home"[0] == 'e' && !IsSpace('e');
    hide Shaped, UniqueRefs;
  }

  lemma DependenciesAreOk()
    ensures Depends(GraphOf(LEAKING), NodesOf(LEAKING), "v1", CALLER.steps)
    ensures Depends(GraphOf(LEAKING), NodesOf(LEAKING), "v2", CALLED.steps)
    ensures NoStrayResolution(GraphOf(LEAKING))
  {
    Graphs();
    References();
    var g, nodes := GraphOf(LEAKING), NodesOf(LEAKING);
    assert [CALL][1..] == [] && [PRESS][1..] == [];
    assert "v2"[0] == 'v' && !IsSpace('v');
    assert DependsStep(g, nodes, "v1", CALL) && DependsStep(g, nodes, "v2", PRESS);
    assert Depends(g, nodes, "v1", []) && Depends(g, nodes, "v2", []);
  }

  lemma PlanIsOk()
    ensures PlanOk(LEAKING, RANK)
  {
    Graphs();
    WorkflowsAreOk();
    DependenciesAreOk();
    Prices();
    assert "e"[0] == 'e' && !IsSpace('e');
    assert EntryOk(GraphOf(LEAKING), ENTRY);
    hide Budget.TotalPrice, WorkflowOk, Depends, NoStrayResolution, ValuesFit, Closed, GraphOf, NodesOf, EntryOk;
  }

  /** The path of the call: the root's, and the step identity after its length. */
  lemma Paths()
    ensures Codec.ValidPath("e") && Codec.ValidPath("e/1:r") && Codec.Child("e", "r") == Some("e/1:r")
  {
    assert "e"[0] == 'e' && "r"[0] == 'r' && !IsSpace('e') && !IsSpace('r');
    assert IndexFrom("e", '/', 0) == None;
    Codec.ChildReparses("e", "r");
    assert Itoa(1) == "1";
    assert Codec.ChildString("e", "r") == "e/1:r";
  }

  lemma Counts()
    ensures RootCount([ROOT, CHILD]) == 1 && ChildCount([ROOT, CHILD], "e", "r") == 1
  {
    assert [ROOT, CHILD][..1] == [ROOT] && [ROOT][..0] == [];
    assert RootCount([ROOT]) == 1 && ChildCount([ROOT], "e", "r") == 0;
  }

  lemma PathsAreOk()
    ensures PathOk(ROOT) && PathOk(CHILD)
  {
    Paths();
    assert "caller"[0] == 'c' && "v1"[0] == 'v' && "called"[0] == 'c' && "v2"[0] == 'v';
    assert !IsSpace('c') && !IsSpace('v');
    hide Codec.ValidPath, IsSpace;
  }

  lemma ChildIsOk()
    ensures ChildOk(GraphOf(LEAKING), Sites(LEAKING), CHILD)
  {
    Graphs();
    References();
    Paths();
    WorkflowsAreOk();
    assert ResolveBindings(map[], HOME) == Some(map[]);
    hide Codec.Child, ValuesFit, Sites, GraphOf, ResolveBindings;
  }

  lemma SitesAreOk()
    ensures CallOk(GraphOf(LEAKING), IndexBy(LEAKING.entries, ENTRY_KEY), Sites(LEAKING), ROOT)
    ensures CallOk(GraphOf(LEAKING), IndexBy(LEAKING.entries, ENTRY_KEY), Sites(LEAKING), CHILD)
    ensures OneChildPerEdge(GraphOf(LEAKING), [ROOT, CHILD], ROOT) && OneChildPerEdge(GraphOf(LEAKING), [ROOT, CHILD], CHILD)
  {
    Graphs();
    References();
    Counts();
    ChildIsOk();
    hide ChildOk, ChildCount, Sites, GraphOf;
  }

  lemma LeakingIsSealed()
    ensures Sealed(LEAKING, RANK)
  {
    PlanIsOk();
    PathsAreOk();
    SitesAreOk();
    Counts();
    Graphs();
    hide PlanOk, PathOk, CallOk, OneChildPerEdge, RootCount, Sites, GraphOf;
  }

  /** The called workflow declares nothing, and is shown its caller's parameter. */
  lemma ChildIsMisled()
    ensures Overlay(LEAKING.environment) == map[] && "e/1:r" in Sites(LEAKING)
    ensures "env.home" in RunScope(Sites(LEAKING), map[], "e/1:r") && Sites(LEAKING)["e/1:r"] == CHILD
  {
    Graphs();
    var sites := Sites(LEAKING);
    hide Sites;
    assert RunScope(sites, map[], "e") == HOME;
    assert |"e"| < |"e/1:r"|;
    assert EnvName("env.home");
    assert "env.home" in CallScope(map[], HOME);
  }

  lemma LeakingReaderIsMisled()
    ensures !ReadersKeepScope(LEAKING) && !NoLeaks(LEAKING)
  {
    ChildIsMisled();
    Graphs();
    LeakingIsSealed();
    NoLeaksExactly(LEAKING, RANK);
    hide Sealed, NoLeaks, Sites, RunScope, GraphOf, Overlay;
    assert !KeepsScope(LEAKING, "e/1:r");
    assert StepReads(PRESS) && StepsRead([PRESS]);
  }

  /** However it is compiled, some host takes the program of the leaking plan another way than its plan. */
  lemma LeakingPlanIsNotFollowed(compiled: seq<CompiledEntry>)
    requires AllCompiled(LEAKING, RANK, compiled)
    ensures Sealed(LEAKING, RANK) && !FollowsPlan(LEAKING, RANK, compiled)
  {
    LeakingIsSealed();
    LeakingReaderIsMisled();
    FollowsPlanExactly(LEAKING, RANK, compiled);
    hide *;
  }
}

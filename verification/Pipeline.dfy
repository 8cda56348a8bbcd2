/**
 The whole pipeline: a compiled entry of a sealed snapshot runs exactly as its
 plan says, in the scopes its bindings say, within the budget it was sealed for.
 */
module Pipeline {
  import opened Wrappers
  import opened Parameters
  import opened Plan
  import opened Phases
  import opened Execution
  import opened Indexes
  import opened Snapshots
  import opened Trees
  import opened Sealing
  import opened Compilation
  import opened Meaning
  import Codec
  import Budget
  import Runtimes
  import EventLog
  import RunOutcomes

  function ScopesOf(sites: map<string, Invocation>): map<string, Scope> {
    map p | p in sites :: sites[p].values
  }

  /** No call of the snapshot can leak a parameter that looks like an environment variable. */
  predicate NoLeaks(s: Snapshot) {
    forall call | call in s.invocations && call.parent.Some? && call.parent.value in Sites(s) ::
      LeaksNothing(call.values, Sites(s)[call.parent.value].values, Overlay(s.environment))
  }

  /** Parameter names that do not start with `env.` are enough. */
  predicate PlainParameters(s: Snapshot) {
    forall w, i | w in s.workflows && 0 <= i < |w.parameters| :: !EnvName(w.parameters[i].name)
  }

  lemma OverlayIsEnvironment(env: Scope)
    ensures EnvironmentOnly(Overlay(env))
  {
    forall k | k in Overlay(env)
      ensures EnvName(k)
    {
      var n :| n in env && EnvKey(n) == k;
      EnvKeyInjective(n, n);
    }
  }

  /** A call site's values have the names its workflow declares. */
  lemma SiteValuesFit(s: Snapshot, rank: map<string, nat>, p: string)
    requires Sealed(s, rank) && p in Sites(s)
    ensures Sites(s)[p].version in GraphOf(s).workflows
    ensures ValuesFit(GraphOf(s).workflows[Sites(s)[p].version].parameters, Sites(s)[p].values)
  {
    SiteIsCall(s, p);
    var g, entries, call := GraphOf(s), IndexBy(s.entries, ENTRY_KEY), Sites(s)[p];
    assert CallOk(g, entries, Sites(s), call);
    if call.parent.None? {
      IndexHolds(s.entries, ENTRY_KEY, call.path);
      assert EntryOk(g, entries[call.path]);
    }
  }

  lemma PlainParametersLeakNothing(s: Snapshot, rank: map<string, nat>)
    requires Sealed(s, rank) && PlainParameters(s)
    ensures NoLeaks(s)
  {
    forall call | call in s.invocations && call.parent.Some? && call.parent.value in Sites(s)
      ensures LeaksNothing(call.values, Sites(s)[call.parent.value].values, Overlay(s.environment))
    {
      var p := call.parent.value;
      SiteValuesFit(s, rank, p);
      WorkflowGives(s, Sites(s)[p].version);
    }
  }

  // ----- the scope the runtime shows a call site -----

  /** What is visible at a call site: its frozen values over what its caller passes on. */
  ghost function RunScope(sites: map<string, Invocation>, env: Scope, p: string): Scope
    decreases |p|
  {
    if p !in sites then map[]
    else if sites[p].parent.Some? && |sites[p].parent.value| < |p|
      then CallScope(sites[p].values, RunScope(sites, env, sites[p].parent.value))
    else sites[p].values + env
  }

  ghost function ShownOf(s: Snapshot): map<string, Scope> {
    map p | p in Sites(s) :: RunScope(Sites(s), Overlay(s.environment), p)
  }

  /** The runtime shows the call site its frozen values and the environment, and nothing else. */
  ghost predicate KeepsScope(s: Snapshot, p: string)
    requires p in Sites(s)
  {
    RunScope(Sites(s), Overlay(s.environment), p) == Sites(s)[p].values + Overlay(s.environment)
  }

  /** Every call site whose workflow reads parameters is shown just its own. */
  ghost predicate ReadersKeepScope(s: Snapshot) {
    forall p | p in Sites(s) && StepsRead(StepsOf(GraphOf(s), Sites(s)[p].version)) :: KeepsScope(s, p)
  }

  lemma CallIsShown(s: Snapshot, p: string)
    requires CallsOk(s) && p in Sites(s) && Sites(s)[p].parent.Some?
    ensures Sites(s)[p].parent.value in Sites(s) && |Sites(s)[p].parent.value| < |p|
    ensures var env := Overlay(s.environment);
            RunScope(Sites(s), env, p) == CallScope(Sites(s)[p].values, RunScope(Sites(s), env, Sites(s)[p].parent.value))
  {
    SiteIsCall(s, p);
    var call := Sites(s)[p];
    assert CallOk(GraphOf(s), IndexBy(s.entries, ENTRY_KEY), Sites(s), call);
    assert CanonicalPath(call) && Codec.ChildString(call.parent.value, call.stepId) == p;
  }

  lemma {:induction false} NoLeaksKeeps(s: Snapshot, p: string)
    requires CallsOk(s) && NoLeaks(s) && p in Sites(s)
    ensures KeepsScope(s, p)
    decreases |p|
  {
    var env := Overlay(s.environment);
    SiteIsCall(s, p);
    var call := Sites(s)[p];
    if call.parent.Some? {
      CallIsShown(s, p);
      NoLeaksKeeps(s, call.parent.value);
      OverlayIsEnvironment(s.environment);
      CallScopeExactly(call.values, Sites(s)[call.parent.value].values, env);
    }
  }

  /** A call leaks nothing exactly when caller and callee are both shown just their own scopes. */
  lemma NoLeaksExactly(s: Snapshot, rank: map<string, nat>)
    requires Sealed(s, rank)
    ensures NoLeaks(s) <==> forall p | p in Sites(s) :: KeepsScope(s, p)
    ensures NoLeaks(s) ==> ReadersKeepScope(s)
  {
    if NoLeaks(s) {
      forall p | p in Sites(s)
        ensures KeepsScope(s, p)
      {
        NoLeaksKeeps(s, p);
      }
    }
    if forall p | p in Sites(s) :: KeepsScope(s, p) {
      forall call | call in s.invocations && call.parent.Some? && call.parent.value in Sites(s)
        ensures LeaksNothing(call.values, Sites(s)[call.parent.value].values, Overlay(s.environment))
      {
        SiteGives(s, call);
        CallIsShown(s, call.path);
        assert KeepsScope(s, call.path) && KeepsScope(s, call.parent.value);
        OverlayIsEnvironment(s.environment);
        CallScopeExactly(call.values, Sites(s)[call.parent.value].values, Overlay(s.environment));
      }
    }
  }

  /** Every binding of a sealed call resolves, to just the values the snapshot froze. */
  lemma CallIsBound(s: Snapshot, rank: map<string, nat>, p: string, id: string)
    requires Sealed(s, rank)
    requires p in Sites(s) && Sites(s)[p].version in GraphOf(s).workflows
    requires id in RefIds(GraphOf(s).workflows[Sites(s)[p].version].steps)
    ensures CallLinked(SourcesOf(s), p, Sites(s)[p].version, id)
    ensures CallBound(SourcesOf(s), ScopesOf(Sites(s)), p, Sites(s)[p].version, id)
    ensures CallShown(SourcesOf(s), ShownOf(s), p, Sites(s)[p].version, id)
  {
    ReferenceIsCall(s, p, id);
    CallsOfHolds(s.invocations, p, id);
    SiteIsCall(s, p);
    assert OneChildPerEdge(GraphOf(s), s.invocations, Sites(s)[p]);
    var call := CallsOf(s.invocations)[CallKey(p, id)];
    SiteGives(s, call);
    assert CallOk(GraphOf(s), IndexBy(s.entries, ENTRY_KEY), Sites(s), call);
    CallIsShown(s, call.path);
    hide RunScope, CallScope, Overlay, ScopeOf, ValuesFit, BindingsHold;
  }

  lemma SealedIsBound(s: Snapshot, rank: map<string, nat>)
    requires Sealed(s, rank)
    ensures Linked(SourcesOf(s), rank)
    ensures Bound(SourcesOf(s), rank, ScopesOf(Sites(s))) && Shows(SourcesOf(s), rank, ShownOf(s))
  {
    SealedIsLinked(s, rank);
    var src := SourcesOf(s);
    forall p, id | p in src.versions && src.versions[p] in rank && id in RefIds(src.g.workflows[src.versions[p]].steps)
      ensures CallBound(src, ScopesOf(Sites(s)), p, src.versions[p], id)
      ensures CallShown(src, ShownOf(s), p, src.versions[p], id)
    {
      CallIsBound(s, rank, p, id);
    }
  }

  /** What an entry means: its workflow, run in its frozen values and the environment. */
  ghost function MeanEntry(h: Host, s: Snapshot, rank: map<string, nat>, e: Entry): (Progress, bool)
    requires At(SourcesOf(s), rank, e.version, e.id)
  {
    MeanWorkflow(h, SourcesOf(s), rank, Progress(0, []), e.version, e.id, e.values, Overlay(s.environment))
  }

  lemma MeanEntryIs(h: Host, s: Snapshot, rank: map<string, nat>, e: Entry)
    requires At(SourcesOf(s), rank, e.version, e.id)
    ensures MeanEntry(h, s, rank, e)
         == MeanWorkflow(h, SourcesOf(s), rank, Progress(0, []), e.version, e.id, e.values, Overlay(s.environment))
  {
  }

  /** Owning the scope is running in it. */
  lemma OwnedRunsInside(h: Host, id: string, steps: seq<Node>, scope: Scope)
    ensures Exec(h, INITIAL, map[], WorkflowNode(id, steps, Some(scope)))
         == Exec(h, INITIAL, scope, WorkflowNode(id, steps, None))
  {
  }

  /** The runtime shows the root of an entry just its own scope. */
  lemma EntryIsShown(s: Snapshot, rank: map<string, nat>, e: Entry)
    requires Sealed(s, rank) && e in s.entries
    ensures e.id in Sites(s) && Sites(s)[e.id].values == e.values
    ensures e.id in ShownOf(s) && ShownOf(s)[e.id] == e.values + Overlay(s.environment)
  {
    var call := RootOfEntry(s, e);
    SiteGives(s, call);
  }

  lemma KeptIsFaithful(s: Snapshot, scoped: bool)
    requires ReadersKeepScope(s) && (scoped ==> forall p | p in Sites(s) :: KeepsScope(s, p))
    ensures Faithful(SourcesOf(s), ScopesOf(Sites(s)), ShownOf(s), Overlay(s.environment), scoped)
  {
    forall p | p in Sites(s) && (scoped || StepsRead(StepsOf(GraphOf(s), Sites(s)[p].version)))
      ensures ShownOf(s)[p] == Sites(s)[p].values + Overlay(s.environment)
    {
      assert KeepsScope(s, p);
    }
  }

  lemma SealedContext(s: Snapshot, rank: map<string, nat>, metadata: map<string, Meta>, scoped: bool)
    requires Sealed(s, rank) && ReadersKeepScope(s) && Truthful(SourcesOf(s), metadata)
    requires scoped ==> forall p | p in Sites(s) :: KeepsScope(s, p)
    ensures Context(SourcesOf(s), rank, ScopesOf(Sites(s)), ShownOf(s), metadata, Overlay(s.environment), scoped)
  {
    SealedIsBound(s, rank);
    KeptIsFaithful(s, scoped);
    hide Sealed, Bound, Shows, Faithful, Truthful, ReadersKeepScope;
  }

  lemma EntryHere(s: Snapshot, rank: map<string, nat>, e: Entry)
    requires Sealed(s, rank) && e in s.entries
    ensures Here(SourcesOf(s), rank, ScopesOf(Sites(s)), ShownOf(s), e.version, [e.id], e.id, e.values)
  {
    var i :| 0 <= i < |s.entries| && s.entries[i] == e;
    EntryIsAt(s, rank, i);
    EntryIsShown(s, rank, e);
    RootPath(SourcesOf(s), e.id);
    hide Sealed, At;
  }

  /** Running the program of an entry is running its tree in the entry's own scope. */
  lemma CompiledRuns(h: Host, s: Snapshot, rank: map<string, nat>, e: Entry, c: CompiledEntry)
    requires Compiled(s, rank, e, c)
    ensures At(SourcesOf(s), rank, e.version, e.id) && Truthful(SourcesOf(s), c.metadata)
    ensures var tree := WorkflowTree(SourcesOf(s), rank, e.version, [e.id], e.id);
            && Ids(tree) <= c.metadata.Keys
            && Exec(h, INITIAL, map[], c.root) == Exec(h, INITIAL, e.values + Overlay(s.environment), tree)
  {
    var tree := WorkflowTree(SourcesOf(s), rank, e.version, [e.id], e.id);
    hide At, Truthful, WorkflowTree, Overlay;
    OwnedRunsInside(h, tree.id, tree.steps, e.values + Overlay(s.environment));
    assert Ids(tree) == Ids(c.root);
  }

  lemma NothingYet(metadata: map<string, Meta>, scoped: bool)
    ensures Agree(metadata, INITIAL, Progress(0, []), scoped)
  {
  }

  /** A compiled entry and its plan, run side by side; `scoped` asks for the same visible parameters as well. */
  lemma ProgramFollowsPlan(h: Host, s: Snapshot, rank: map<string, nat>, e: Entry, c: CompiledEntry, scoped: bool)
    requires Sealed(s, rank) && e in s.entries && Compiled(s, rank, e, c) && ReadersKeepScope(s)
    requires scoped ==> forall p | p in Sites(s) :: KeepsScope(s, p)
    requires At(SourcesOf(s), rank, e.version, e.id)
    ensures Together(c.metadata, Exec(h, INITIAL, map[], c.root), MeanEntry(h, s, rank, e), scoped)
  {
    hide *;
    CompiledRuns(h, s, rank, e, c);
    EntryHere(s, rank, e);
    EntryIsShown(s, rank, e);
    SealedContext(s, rank, c.metadata, scoped);
    NothingYet(c.metadata, scoped);
    WorkflowMeans(h, SourcesOf(s), rank, ScopesOf(Sites(s)), ShownOf(s), c.metadata, Overlay(s.environment), scoped,
                  INITIAL, Progress(0, []), e.version, [e.id], e.id, e.values);
    MeanEntryIs(h, s, rank, e);
  }

  /**
   Compiler correctness: where every workflow that reads parameters is shown its
   own, the compiled program of an entry visits the same plan steps at the same
   call sites as the plan itself, and ends with the same success or first failure,
   for every host. Where no call leaks, the visible parameters are the same too.
   */
  lemma ProgramMeansPlan(h: Host, s: Snapshot, rank: map<string, nat>, e: Entry, c: CompiledEntry)
    requires Sealed(s, rank) && e in s.entries && Compiled(s, rank, e, c)
    ensures ReadersKeepScope(s) ==> SameCourse(c.metadata, Exec(h, INITIAL, map[], c.root), MeanEntry(h, s, rank, e))
    ensures NoLeaks(s) ==> SameEnd(c.metadata, Exec(h, INITIAL, map[], c.root), MeanEntry(h, s, rank, e))
  {
    NoLeaksExactly(s, rank);
    if ReadersKeepScope(s) { ProgramFollowsPlan(h, s, rank, e, c, false); }
    if NoLeaks(s) { ProgramFollowsPlan(h, s, rank, e, c, true); }
    hide Together, KeepsScope, ReadersKeepScope;
  }

  ghost predicate AllCompiled(s: Snapshot, rank: map<string, nat>, compiled: seq<CompiledEntry>) {
    |compiled| == |s.entries| && forall i | 0 <= i < |s.entries| :: Compiled(s, rank, s.entries[i], compiled[i])
  }

  /** Running a compiled entry on a new runtime: it follows the plan, its log is safe, nothing stays active. */
  method RunEntry(host: Host, c: CompiledEntry, ghost s: Snapshot, ghost rank: map<string, nat>, ghost e: Entry)
    returns (rt: Runtimes.Runtime, ok: bool)
    requires Sealed(s, rank) && e in s.entries && Compiled(s, rank, e, c)
    ensures fresh(rt)
    ensures ReadersKeepScope(s) ==> SameCourse(c.metadata, (rt.State(), ok), MeanEntry(host, s, rank, e))
    ensures NoLeaks(s) ==> SameEnd(c.metadata, (rt.State(), ok), MeanEntry(host, s, rank, e))
    ensures rt.active == map[] && EventLog.SafeLog(rt.log, rt.State())
    ensures RunOutcomes.Telling(rt.log, 0, ok)
  {
    rt, ok := Runtimes.RunProgram(host, c.root);
    ProgramMeansPlan(host, s, rank, e, c);
  }
}

/**
 What the frozen values of a call are, name by name: what the snapshot checks
 compute by resolving bindings and adding defaults is the one scope that has a
 bound value for every bound name and the declared default for every other.
 */
module FrozenScopes {
  import opened Wrappers
  import opened Text
  import opened Parameters
  import opened Bindings
  import opened Plan
  import opened Indexes
  import opened Snapshots
  import opened Sealing
  import Codec

  /** The value a binding stands for: its valid literal, or what the caller holds under a name that is not blank. */
  predicate StandsForValue(binding: Binding, caller: Scope, value: Value) {
    match binding
    case Literal(literal) => literal.Valid() && value == literal
    case ParentReference(name) => !Blank(name) && name in caller && value == caller[name]
    case Malformed => false
  }

  predicate Declares(definitions: seq<Definition>, n: string) {
    exists i :: 0 <= i < |definitions| && definitions[i].name == n
  }

  /** Bound names have their bound values, the other declared names their defaults, and there are no more names. */
  predicate FrozenFrom(bindings: map<string, Binding>, definitions: seq<Definition>, caller: Scope, values: Scope) {
    && (forall n | n in bindings :: n in values && StandsForValue(bindings[n], caller, values[n]))
    && (forall i | 0 <= i < |definitions| && definitions[i].name !in bindings ::
          match definitions[i].default
          case Some(default) => definitions[i].name in values && values[definitions[i].name] == default
          case None => definitions[i].name !in values)
    && (forall n | n in values :: n in bindings || Declares(definitions, n))
  }

  lemma StandsIsResolved(binding: Binding, caller: Scope, value: Value)
    ensures StandsForValue(binding, caller, value) <==> binding.Resolve(caller) == Some(value)
  {
  }

  /** Where all bindings stand for the values given to their names, they resolve to just these. */
  lemma BoundIsResolved(bindings: map<string, Binding>, caller: Scope, bound: Scope)
    ensures ResolveBindings(bindings, caller) == Some(bound)
       <==> bound.Keys == bindings.Keys && forall n | n in bindings :: StandsForValue(bindings[n], caller, bound[n])
  {
    forall n, value | n in bindings
      ensures StandsForValue(bindings[n], caller, value) <==> bindings[n].Resolve(caller) == Some(value)
    {
      StandsIsResolved(bindings[n], caller, value);
    }
    if bound.Keys == bindings.Keys && forall n | n in bindings :: StandsForValue(bindings[n], caller, bound[n]) {
      assert forall n | n in bindings :: bindings[n].Resolve(caller) == Some(bound[n]);
      assert bound == map n | n in bindings :: bindings[n].Resolve(caller).value;
    }
    hide StandsForValue, Binding.Resolve;
  }

  /** Adding the defaults to the bound values gives the scope that is frozen from the bindings. */
  lemma DefaultsAreFrozen(bindings: map<string, Binding>, definitions: seq<Definition>, caller: Scope, bound: Scope)
    requires UniqueNames(definitions)
    requires bound.Keys == bindings.Keys && forall n | n in bindings :: StandsForValue(bindings[n], caller, bound[n])
    ensures FrozenFrom(bindings, definitions, caller, WithDefaults(definitions, bound))
  {
    hide StandsForValue, WithDefaults;
    forall n
      ensures n in bindings ==> n in WithDefaults(definitions, bound) && WithDefaults(definitions, bound)[n] == bound[n]
      ensures n !in bindings ==> (n in WithDefaults(definitions, bound) <==> Defaulted(definitions, n))
    {
      DefaultsAre(definitions, bound, n);
    }
    forall i | 0 <= i < |definitions| && definitions[i].name !in bindings
      ensures match definitions[i].default
              case Some(default) => definitions[i].name in WithDefaults(definitions, bound)
                && WithDefaults(definitions, bound)[definitions[i].name] == default
              case None => definitions[i].name !in WithDefaults(definitions, bound)
    {
      DefaultsAre(definitions, bound, definitions[i].name);
    }
  }

  /** Bindings, declarations and a caller freeze to one scope at most. */
  lemma FrozenIsUnique(bindings: map<string, Binding>, definitions: seq<Definition>, caller: Scope, a: Scope, b: Scope)
    requires FrozenFrom(bindings, definitions, caller, a) && FrozenFrom(bindings, definitions, caller, b)
    ensures a == b
  {
    forall n
      ensures n in a <==> n in b
      ensures n in a && n in b ==> a[n] == b[n]
    {
      if n in bindings {
        StandsIsResolved(bindings[n], caller, a[n]);
        StandsIsResolved(bindings[n], caller, b[n]);
      }
    }
    hide StandsForValue;
    assert a.Keys == b.Keys;
  }

  /** The scope a snapshot is checked with is the one frozen from the bindings, whenever there is one. */
  lemma ScopeIsFrozen(bindings: map<string, Binding>, definitions: seq<Definition>, caller: Scope, values: Scope)
    requires UniqueNames(definitions)
    ensures ScopeOf(bindings, definitions, caller) == Some(values) <==> FrozenFrom(bindings, definitions, caller, values)
  {
    hide WithDefaults, StandsForValue, ResolveBindings;
    if ScopeOf(bindings, definitions, caller) == Some(values) {
      var bound := ResolveBindings(bindings, caller).value;
      BoundIsResolved(bindings, caller, bound);
      DefaultsAreFrozen(bindings, definitions, caller, bound);
    }
    if FrozenFrom(bindings, definitions, caller, values) {
      var bound := map n | n in bindings :: values[n];
      BoundIsResolved(bindings, caller, bound);
      DefaultsAreFrozen(bindings, definitions, caller, bound);
      FrozenIsUnique(bindings, definitions, caller, values, WithDefaults(definitions, bound));
    }
  }

  // ----- the calls of a sealed snapshot -----

  /**
   A call hangs on a call site of the snapshot: it is made by a reference step of
   the version that runs there, at the path that belongs to that step, and it runs
   what that step resolves to.
   */
  predicate Attached(g: Graph, sites: map<string, Invocation>, call: Invocation)
    requires call.parent.Some?
  {
    && call.parent.value in sites
    && var caller := sites[call.parent.value].version;
       && caller == call.parentVersion && caller in g.workflows
       && call.stepId in RefIds(g.workflows[caller].steps)
       && Some(call.path) == Codec.Child(call.parent.value, call.stepId)
       && EdgeKey(caller, call.stepId) in g.resolutions
       && var resolution := g.resolutions[EdgeKey(caller, call.stepId)];
          call.version == resolution.version && call.fragment == resolution.fragment && call.version in g.workflows
  }

  /** A call passes its check exactly when it is attached and its values are frozen from its bindings and fit. */
  lemma ChildOkExactly(g: Graph, sites: map<string, Invocation>, call: Invocation)
    requires call.parent.Some?
    ensures ChildOk(g, sites, call) <==>
      && Attached(g, sites, call)
      && ValuesFit(g.workflows[call.version].parameters, call.values)
      && FrozenFrom(call.bindings, g.workflows[call.version].parameters, sites[call.parent.value].values, call.values)
  {
    if call.parent.value in sites && call.version in g.workflows
      && ValuesFit(g.workflows[call.version].parameters, call.values)
    {
      ScopeIsFrozen(call.bindings, g.workflows[call.version].parameters, sites[call.parent.value].values, call.values);
    }
    hide ScopeOf, FrozenFrom;
  }

  /**
   Every call of a sealed snapshot holds, name by name, what its bindings take from
   its caller or the declared default, and every one of these values is accepted.
   */
  lemma SealedCallIsFrozen(s: Snapshot, rank: map<string, nat>, call: Invocation)
    requires Sealed(s, rank) && call in s.invocations && call.parent.Some?
    ensures Attached(GraphOf(s), Sites(s), call)
    ensures var definitions := GraphOf(s).workflows[call.version].parameters;
            && ValuesFit(definitions, call.values)
            && FrozenFrom(call.bindings, definitions, Sites(s)[call.parent.value].values, call.values)
  {
    assert CallOk(GraphOf(s), IndexBy(s.entries, ENTRY_KEY), Sites(s), call);
    ChildOkExactly(GraphOf(s), Sites(s), call);
    hide ChildOk, Attached, FrozenFrom, ValuesFit, PlanOk;
  }

  // ----- the reference steps of a sealed plan -----

  /** The step is among the steps, or repeated somewhere inside them. */
  predicate Holds(steps: seq<Step>, step: Step) {
    steps != [] && (HoldsStep(steps[0], step) || Holds(steps[1..], step))
  }

  predicate HoldsStep(outer: Step, step: Step) {
    outer == step || (outer.RepeatStep? && Holds(outer.children, step))
  }

  lemma {:induction false} HeldDepends(g: Graph, nodes: map<TargetRef, NodeSnapshot>, v: string, steps: seq<Step>, step: Step)
    requires Depends(g, nodes, v, steps) && Holds(steps, step)
    ensures DependsStep(g, nodes, v, step)
    decreases steps, 0
  {
    if HoldsStep(steps[0], step) {
      HeldStepDepends(g, nodes, v, steps[0], step);
    } else {
      HeldDepends(g, nodes, v, steps[1..], step);
    }
  }

  lemma {:induction false} HeldStepDepends(g: Graph, nodes: map<TargetRef, NodeSnapshot>, v: string, outer: Step, step: Step)
    requires DependsStep(g, nodes, v, outer) && HoldsStep(outer, step)
    ensures DependsStep(g, nodes, v, step)
    decreases outer, 1
  {
    if outer != step { HeldDepends(g, nodes, v, outer.children, step); }
  }

  /**
   The bindings a reference step of a sealed plan was written with work for every
   caller whose values fit: they freeze to one scope, and its values fit the called
   version in turn, save where a required selection is bound to an empty one.
   */
  lemma PlannedBindingsFit(s: Snapshot, rank: map<string, nat>, w: Workflow, step: Step, caller: Scope)
    returns (values: Scope)
    requires Sealed(s, rank) && w in s.workflows && Holds(w.steps, step) && step.ReferenceStep?
    requires ValuesFit(w.parameters, caller)
    ensures step.version in GraphOf(s).workflows
    ensures var definitions := GraphOf(s).workflows[step.version].parameters;
            && FrozenFrom(step.bindings, definitions, caller, values)
            && (ValuesFit(definitions, values)
                <==> !exists i :: 0 <= i < |definitions| && BoundEmpty(definitions[i], step.bindings, caller))
  {
    var g := GraphOf(s);
    HeldDepends(g, NodesOf(s), w.versionId, w.steps, step);
    var i :| 0 <= i < |s.workflows| && s.workflows[i] == w;
    IndexGives(s.workflows, WORKFLOW_KEY, i);
    WorkflowGives(s, step.version);
    assert WorkflowOk(w) && WorkflowOk(g.workflows[step.version]);
    var definitions := g.workflows[step.version].parameters;
    hide Depends, Holds, CallsOk, Shaped, RefBag, Closed, ValuesFit, BoundEmpty, FrozenFrom;
    CheckedBindingsFit(w.parameters, definitions, step.bindings, caller);
    values := WithDefaults(definitions, ResolveBindings(step.bindings, caller).value);
    ScopeIsFrozen(step.bindings, definitions, caller, values);
  }
}

/**
 Checking the call sites of a snapshot (domain/execution/instance_snapshot.go):
 the loops accept exactly the snapshots whose call sites are in order.
 */
module CallChecks {
  import opened Wrappers
  import opened Parameters
  import opened Plan
  import opened Indexes
  import opened Snapshots
  import opened Sealing
  import opened FrozenScopes
  import opened Trees
  import Ancestry
  import Codec

  // ----- frozen scopes -----

  /** Part of a scope: the bindings not in `left` have been resolved. */
  ghost predicate Resolving(bindings: map<string, Binding>, caller: Scope, left: set<string>, values: Scope) {
    && left <= bindings.Keys && values.Keys == bindings.Keys - left
    && forall n | n in bindings && n !in left ::
         bindings[n].Resolve(caller).Some? && values[n] == bindings[n].Resolve(caller).value
  }

  /** Every binding is resolved in the values of the caller; one that cannot be is an error. */
  method ResolveAll(bindings: map<string, Binding>, caller: Scope) returns (r: Option<Scope>)
    ensures r == ResolveBindings(bindings, caller)
  {
    var values: Scope, left := map[], bindings.Keys;
    while left != {}
      invariant Resolving(bindings, caller, left, values)
      decreases |left|
    {
      var n :| n in left;
      var value := bindings[n].Resolve(caller);
      if value.None? { return None; }
      ResolvingNext(bindings, caller, left, values, n);
      hide Resolving, Binding.Resolve;
      values, left := values[n := value.value], left - {n};
    }
    ResolvingEnd(bindings, caller, values);
    return Some(values);
  }

  lemma ResolvingNext(bindings: map<string, Binding>, caller: Scope, left: set<string>, values: Scope, n: string)
    requires Resolving(bindings, caller, left, values) && n in left && bindings[n].Resolve(caller).Some?
    ensures Resolving(bindings, caller, left - {n}, values[n := bindings[n].Resolve(caller).value])
  {
    hide Binding.Resolve;
  }

  lemma ResolvingEnd(bindings: map<string, Binding>, caller: Scope, values: Scope)
    requires Resolving(bindings, caller, {}, values)
    ensures ResolveBindings(bindings, caller) == Some(values)
  {
    hide Binding.Resolve;
    assert values == map n | n in bindings :: bindings[n].Resolve(caller).value;
  }

  /** Unbound parameters get their declared defaults. */
  method AddDefaults(definitions: seq<Definition>, values: Scope) returns (r: Scope)
    ensures r == WithDefaults(definitions, values)
  {
    r := values;
    for i := 0 to |definitions|
      invariant WithDefaults(definitions[i..], r) == WithDefaults(definitions, values)
    {
      var d := definitions[i];
      assert definitions[i..][1..] == definitions[i + 1..];
      if d.name !in r && d.default.Some? { r := r[d.name := d.default.value]; }
    }
  }

  method ResolveScope(bindings: map<string, Binding>, definitions: seq<Definition>, caller: Scope)
    returns (r: Option<Scope>)
    ensures r == ScopeOf(bindings, definitions, caller)
    ensures UniqueNames(definitions) ==>
      forall values :: r == Some(values) <==> FrozenFrom(bindings, definitions, caller, values)
  {
    if UniqueNames(definitions) {
      forall values
        ensures ScopeOf(bindings, definitions, caller) == Some(values) <==> FrozenFrom(bindings, definitions, caller, values)
      {
        ScopeIsFrozen(bindings, definitions, caller, values);
      }
    }
    hide FrozenFrom, UniqueNames, ResolveBindings, WithDefaults;
    var resolved := ResolveAll(bindings, caller);
    if resolved.None? { return None; }
    var values := AddDefaults(definitions, resolved.value);
    return Some(values);
  }

  // ----- one call site -----

  method CheckChild(g: Graph, sites: map<string, Invocation>, call: Invocation) returns (ok: bool)
    requires call.parent.Some?
    ensures ok == ChildOk(g, sites, call)
  {
    if call.parent.value !in sites { return false; }
    var parent := sites[call.parent.value];
    if Codec.Child(call.parent.value, call.stepId) != Some(call.path) { return false; }
    var key := EdgeKey(call.parentVersion, call.stepId);
    if key !in g.resolutions || call.parentVersion !in g.workflows { return false; }
    if call.stepId !in RefIds(g.workflows[call.parentVersion].steps) { return false; }
    var resolution := g.resolutions[key];
    if parent.version != call.parentVersion { return false; }
    if resolution.fragment != call.fragment || resolution.version != call.version { return false; }
    if call.version !in g.workflows { return false; }
    var definitions := g.workflows[call.version].parameters;
    var scope := ResolveScope(call.bindings, definitions, parent.values);
    if scope.None? { return false; }
    if !ValuesFit(definitions, scope.value) { return false; }
    return scope.value == call.values;
  }

  method CheckCalls(g: Graph, entries: map<string, Entry>, sites: map<string, Invocation>, calls: seq<Invocation>)
    returns (ok: bool)
    ensures ok <==> forall call | call in calls :: CallOk(g, entries, sites, call)
  {
    hide RootOk, ChildOk;
    for i := 0 to |calls|
      invariant forall j | 0 <= j < i :: CallOk(g, entries, sites, calls[j])
    {
      var call := calls[i];
      assert call in calls;
      if call.parent.None? {
        if !RootOk(entries, call) { return false; }
      } else {
        var child := CheckChild(g, sites, call);
        if !child { return false; }
      }
      assert CallOk(g, entries, sites, calls[i]);
    }
    return true;
  }

  /** Every call site has a well-formed identity and a path of its own. */
  method IndexSites(calls: seq<Invocation>) returns (r: Option<map<string, Invocation>>)
    ensures r.Some? <==> DistinctKeys(calls, PATH_KEY) && forall call | call in calls :: PathOk(call)
    ensures r.Some? ==> r.value == IndexBy(calls, PATH_KEY)
  {
    hide Codec.ValidPath;
    for i := 0 to |calls|
      invariant forall j | 0 <= j < i :: PathOk(calls[j])
    {
      assert calls[i] in calls;
      var valid := Codec.ValidateInvocationPath(calls[i].path);
      if !valid || !PathOk(calls[i]) { return None; }
    }
    r := BuildIndex(calls, PATH_KEY);
  }

  // ----- one root per entry, one child per reference step -----

  function CountAt(counts: map<CallKey, nat>, key: CallKey): nat {
    if key in counts then counts[key] else 0
  }

  /** Counts the roots, and the children of every call site and step. */
  method CountCalls(calls: seq<Invocation>) returns (roots: nat, children: map<CallKey, nat>)
    ensures roots == RootCount(calls)
    ensures forall p, id :: CountAt(children, CallKey(p, id)) == ChildCount(calls, p, id)
  {
    roots, children := 0, map[];
    for i := 0 to |calls|
      invariant roots == RootCount(calls[..i])
      invariant forall p, id :: CountAt(children, CallKey(p, id)) == ChildCount(calls[..i], p, id)
    {
      assert calls[..i + 1][..i] == calls[..i];
      if calls[i].parent.None? {
        roots := roots + 1;
        continue;
      }
      var key := CallKey(calls[i].parent.value, calls[i].stepId);
      children := children[key := CountAt(children, key) + 1];
    }
    assert calls[..|calls|] == calls;
  }

  /** The steps not in `left` each have one child. */
  ghost predicate OneChildBut(calls: seq<Invocation>, p: string, ids: set<string>, left: set<string>) {
    left <= ids && forall id | id in ids && id !in left :: ChildCount(calls, p, id) == 1
  }

  method CheckChildren(calls: seq<Invocation>, children: map<CallKey, nat>, p: string, ids: set<string>)
    returns (ok: bool)
    requires forall q, id :: CountAt(children, CallKey(q, id)) == ChildCount(calls, q, id)
    ensures ok <==> forall id | id in ids :: ChildCount(calls, p, id) == 1
  {
    var left := ids;
    while left != {}
      invariant OneChildBut(calls, p, ids, left)
      decreases |left|
    {
      var id :| id in left;
      if CountAt(children, CallKey(p, id)) != 1 { return false; }
      left := left - {id};
    }
    return true;
  }

  method CheckEdges(g: Graph, calls: seq<Invocation>, children: map<CallKey, nat>) returns (ok: bool)
    requires forall q, id :: CountAt(children, CallKey(q, id)) == ChildCount(calls, q, id)
    ensures ok <==> forall call | call in calls :: OneChildPerEdge(g, calls, call)
  {
    for i := 0 to |calls|
      invariant forall j | 0 <= j < i :: OneChildPerEdge(g, calls, calls[j])
    {
      assert calls[i] in calls;
      if calls[i].version !in g.workflows { return false; }
      var one := CheckChildren(calls, children, calls[i].path, RefIds(g.workflows[calls[i].version].steps));
      if !one { return false; }
      assert OneChildPerEdge(g, calls, calls[i]);
    }
    return true;
  }

  /** Call sites that are in order always have rooted chains of parents. */
  lemma CallsAreRooted(s: Snapshot)
    requires CallsOk(s)
    ensures forall p | p in Sites(s) :: Ancestry.Rooted(Sites(s), p)
  {
    var sites := Sites(s);
    forall p | p in sites
      ensures sites[p].path == p
      ensures sites[p].parent.Some? ==> sites[p].parent.value in sites && CanonicalPath(sites[p])
    {
      SiteIsCall(s, p);
      assert CallOk(GraphOf(s), IndexBy(s.entries, ENTRY_KEY), sites, sites[p]);
    }
    forall p | p in sites
      ensures Ancestry.Rooted(sites, p)
    {
      Ancestry.CanonicalIsRooted(sites, p);
    }
  }

  /**
   The call-site half of `validateSnapshot` decides exactly `CallsOk`. The visit
   of the parent chains never decides alone: what it refuses, the canonical paths
   would refuse as well.
   */
  method ValidateCalls(s: Snapshot, entries: map<string, Entry>, g: Graph) returns (ok: bool)
    requires entries == IndexBy(s.entries, ENTRY_KEY) && g == GraphOf(s)
    ensures ok <==> CallsOk(s)
  {
    if CallsOk(s) { CallsAreRooted(s); }
    hide Ancestry.Rooted, PathOk, CallOk, OneChildPerEdge, DistinctKeys;
    var sites := IndexSites(s.invocations);
    if sites.None? { return false; }
    assert sites.value == Sites(s);
    var rooted := Ancestry.VisitAll(sites.value);
    if !rooted { return false; }
    var calls := CheckCalls(g, entries, sites.value, s.invocations);
    if !calls { return false; }
    var roots, children := CountCalls(s.invocations);
    if roots != |s.entries| { return false; }
    ok := CheckEdges(g, s.invocations, children);
  }
}

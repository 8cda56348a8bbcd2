/**
 Compiling a sealed snapshot (application/engine/compiler.go): one program per
 entry, each owning the entry's frozen values and the environment.
 */
module Compilation {
  import opened Wrappers
  import opened Parameters
  import opened Plan
  import opened Execution
  import opened Indexes
  import opened Snapshots
  import opened Trees
  import opened Compiler
  import opened Sealing
  import Budget
  import Codec
  import References
  import Sizes

  datatype CompiledEntry = CompiledEntry(entryId: string, root: Node, metadata: map<string, Meta>)

  datatype CompilePlanError =
    | DuplicateWorkflow
    | DuplicateResolution
    | DuplicateNode
    | DuplicateInvocation
    | DuplicateEntry
    | RootMissing
    | EnvironmentCollision
    | Uncompilable(error: CompileError)

  // ----- the environment -----

  function EnvKey(name: string): string {
    "env." + name
  }

  lemma EnvKeyInjective(a: string, b: string)
    ensures EnvKey(a) == EnvKey(b) <==> a == b
    ensures EnvName(EnvKey(a))
  {
    assert EnvKey(a)[4..] == a && EnvKey(b)[4..] == b;
  }

  /** The environment under its parameter names. */
  function Overlay(env: Scope): Scope {
    map k | k in (set n | n in env :: EnvKey(n)) :: OverlayValue(env, k)
  }

  function OverlayValue(env: Scope, k: string): Value
    requires exists n :: n in env && EnvKey(n) == k
  {
    assert forall n | n in env && EnvKey(n) == k :: k[4..] == n;
    env[k[4..]]
  }

  lemma OverlayHolds(env: Scope, n: string)
    ensures EnvKey(n) in Overlay(env) <==> n in env
    ensures n in env ==> Overlay(env)[EnvKey(n)] == env[n]
  {
    forall m | m in env && EnvKey(m) == EnvKey(n)
      ensures m == n
    {
      EnvKeyInjective(m, n);
    }
    assert EnvKey(n)[4..] == n;
  }

  /** Whether a root parameter already has the name of an environment variable. */
  predicate Collides(values: Scope, env: Scope) {
    exists n :: n in env && EnvKey(n) in values
  }

  /** The root scope halfway through the overlay loop: `left` is still to be added. */
  ghost predicate Overlaying(values: Scope, env: Scope, left: set<string>, scope: Scope) {
    && left <= env.Keys
    && scope == values + Overlay(map n | n in env && n !in left :: env[n])
    && forall n | n in env && n !in left :: EnvKey(n) !in values
  }

  lemma OverlayingNext(values: Scope, env: Scope, left: set<string>, scope: Scope, n: string)
    requires Overlaying(values, env, left, scope) && n in left
    ensures EnvKey(n) in scope <==> EnvKey(n) in values
    ensures EnvKey(n) !in scope ==> Overlaying(values, env, left - {n}, scope[EnvKey(n) := env[n]])
  {
    var done := map m | m in env && m !in left :: env[m];
    var more := map m | m in env && m !in left - {n} :: env[m];
    OverlayHolds(done, n);
    if EnvKey(n) !in scope {
      forall k
        ensures k in Overlay(more) <==> k in Overlay(done) || k == EnvKey(n)
        ensures k in Overlay(done) ==> k != EnvKey(n) && k in Overlay(more) && Overlay(more)[k] == Overlay(done)[k]
      {
        if m :| m in env && EnvKey(m) == k {
          OverlayHolds(done, m);
          OverlayHolds(more, m);
          EnvKeyInjective(m, n);
        }
      }
      OverlayHolds(more, n);
      assert scope[EnvKey(n) := env[n]] == values + Overlay(more);
    }
  }

  lemma OverlayingStart(values: Scope, env: Scope)
    ensures Overlaying(values, env, env.Keys, values)
  {
    var left := env.Keys;
    var none: Scope := map n | n in env && n !in left :: env[n];
    assert none == map[];
    assert Overlay(none) == map[];
  }

  lemma OverlayingEnd(values: Scope, env: Scope, scope: Scope)
    requires Overlaying(values, env, {}, scope)
    ensures scope == values + Overlay(env) && !Collides(values, env)
  {
    var left: set<string> := {};
    assert env == map n | n in env && n !in left :: env[n];
  }

  /** Adds every environment variable to the root scope, refusing a name that is taken. */
  method AddEnvironment(values: Scope, env: Scope) returns (r: Option<Scope>)
    ensures r.Some? <==> !Collides(values, env)
    ensures r.Some? ==> r.value == values + Overlay(env)
  {
    hide Overlaying, Overlay;
    var scope, left := values, env.Keys;
    OverlayingStart(values, env);
    while left != {}
      invariant left <= env.Keys && Overlaying(values, env, left, scope)
      decreases |left|
    {
      var n :| n in left;
      OverlayingNext(values, env, left, scope, n);
      if EnvKey(n) in scope { return None; }
      scope, left := scope[EnvKey(n) := env[n]], left - {n};
    }
    OverlayingEnd(values, env, scope);
    return Some(scope);
  }

  // ----- entries -----

  /** The program an entry must compile to, and the metadata that describes it. */
  ghost predicate Compiled(s: Snapshot, rank: map<string, nat>, e: Entry, c: CompiledEntry) {
    var src := SourcesOf(s);
    && At(src, rank, e.version, e.id)
    && c.entryId == e.id
    && c.root == WorkflowTree(src, rank, e.version, [e.id], e.id).(owned := Some(e.values + Overlay(s.environment)))
    && Ids(c.root) <= c.metadata.Keys && Truthful(src, c.metadata)
  }

  /** An entry compiles exactly when its chain is not too deep and its names do not collide. */
  ghost predicate Compilable(s: Snapshot, rank: map<string, nat>, e: Entry) {
    && At(SourcesOf(s), rank, e.version, e.id)
    && Chain(GraphOf(s), rank, e.version) <= MAX_DEPTH
    && !Collides(e.values, s.environment)
  }

  /** With `n` nodes compiled for the entries before `i`, the rest of the budget covers the others. */
  ghost predicate Funded(s: Snapshot, rank: map<string, nat>, i: nat, n: nat) {
    && i <= |s.entries| && Closed(GraphOf(s), rank) && (forall v | v in Roots(s) :: v in rank)
    && n + Budget.TotalPrice(GraphOf(s), rank, Roots(s)[i..]).executions
         <= Budget.TotalPrice(GraphOf(s), rank, Roots(s)).executions
  }

  lemma FundedStart(s: Snapshot, rank: map<string, nat>)
    requires Sealed(s, rank)
    ensures Funded(s, rank, 0, 0)
  {
    assert Roots(s)[0..] == Roots(s);
  }

  lemma FundedNext(s: Snapshot, rank: map<string, nat>, i: nat, n: nat, more: nat)
    requires Sealed(s, rank) && i < |s.entries| && Funded(s, rank, i, n)
    requires s.entries[i].version in rank ==> more <= n + Count(GraphOf(s), rank, s.entries[i].version)
    ensures Funded(s, rank, i + 1, more)
    ensures more <= Budget.MAX_EXECUTIONS as int
  {
    var g, v := GraphOf(s), s.entries[i].version;
    assert Roots(s)[i] == v;
    forall w | w in rank
      ensures Shaped(g.workflows[w].steps)
    {
      WorkflowGives(s, w);
    }
    Sizes.CountWithinPrice(g, rank, v, g.workflows[v].steps);
    Budget.TotalPriceSplit(g, rank, Roots(s), i);
  }

  lemma FundedEnd(s: Snapshot, rank: map<string, nat>, i: nat, n: nat)
    requires Funded(s, rank, i, n)
    ensures Closed(GraphOf(s), rank) && forall v | v in Roots(s) :: v in rank
    ensures n <= Budget.TotalPrice(GraphOf(s), rank, Roots(s)).executions
  {
  }

  /** The string path of an entry's root, and the call site it names. */
  lemma RootPath(src: Sources, id: string)
    ensures Codec.Components([id]) == Codec.Component(id) && SiteOf(src, [id]) == Some(id)
  {
    assert [id][..0] == [] && Codec.Components([]) == "";
    assert "" + Codec.Component(id) == Codec.Component(id);
  }

  method CompileEntry(src: Sources, sites: map<string, Invocation>, environment: Scope, entry: Entry,
    counter: Counter, ghost s: Snapshot, ghost rank: map<string, nat>)
    returns (r: Result<CompiledEntry, CompilePlanError>)
    requires src == SourcesOf(s) && sites == Sites(s) && environment == s.environment
    requires At(src, rank, entry.version, entry.id)
    requires entry.id in sites && sites[entry.id].values == entry.values
    requires counter.n + Count(src.g, rank, entry.version) <= MAX_COMPILED_NODES
    modifies counter
    ensures r.Ok? <==> Compilable(s, rank, entry)
    ensures r.Ok? ==> Compiled(s, rank, entry, r.value)
    ensures r.Err? ==> r.error == Uncompilable(TooDeep) || r.error == EnvironmentCollision
    ensures old(counter.n) <= counter.n <= old(counter.n) + Count(src.g, rank, entry.version)
  {
    var compiler := new EntryCompiler(src, counter, rank);
    RootPath(src, entry.id);
    var rootPath := Codec.Component(entry.id);
    var root := compiler.CompileWorkflow(entry.version, rootPath, [entry.id], entry.id, 1);
    if root.Err? { return Err(Uncompilable(root.error)); }
    hide Truthful, Overlay, Collides, At, WorkflowTree;
    if entry.id !in sites { return Err(RootMissing); }
    var scope := AddEnvironment(sites[entry.id].values, environment);
    if scope.None? { return Err(EnvironmentCollision); }
    return Ok(CompiledEntry(entry.id, root.value.(owned := scope), compiler.metadata));
  }

  /** The entries before `i` compiled, and the rest of the budget still covers the rest. */
  ghost predicate CompiledUpTo(s: Snapshot, rank: map<string, nat>, i: nat, done: seq<CompiledEntry>, seen: set<string>) {
    && i <= |s.entries| && |done| == i
    && (forall j | 0 <= j < i :: Compilable(s, rank, s.entries[j]) && Compiled(s, rank, s.entries[j], done[j]))
    && forall id | id in seen :: exists j :: 0 <= j < i && s.entries[j].id == id
  }

  /** What the loop needs before it compiles entry `i`. */
  lemma EntryReady(s: Snapshot, rank: map<string, nat>, i: nat, done: seq<CompiledEntry>, seen: set<string>, n: nat)
    requires Sealed(s, rank) && CompiledUpTo(s, rank, i, done, seen) && i < |s.entries| && Funded(s, rank, i, n)
    ensures At(SourcesOf(s), rank, s.entries[i].version, s.entries[i].id)
    ensures s.entries[i].id in Sites(s) && Sites(s)[s.entries[i].id].values == s.entries[i].values
    ensures n + Count(GraphOf(s), rank, s.entries[i].version) <= MAX_COMPILED_NODES
    ensures s.entries[i].id !in seen
  {
    EntryIsAt(s, rank, i);
    FundedNext(s, rank, i, n, n + Count(GraphOf(s), rank, s.entries[i].version));
    forall j | 0 <= j < i
      ensures s.entries[j].id != s.entries[i].id
    {
      assert ENTRY_KEY(s.entries[j]) != ENTRY_KEY(s.entries[i]);
    }
  }

  lemma EntryDone(s: Snapshot, rank: map<string, nat>, i: nat, done: seq<CompiledEntry>, seen: set<string>,
    c: CompiledEntry)
    requires CompiledUpTo(s, rank, i, done, seen) && i < |s.entries|
    requires Compilable(s, rank, s.entries[i]) && Compiled(s, rank, s.entries[i], c)
    ensures CompiledUpTo(s, rank, i + 1, done + [c], seen + {s.entries[i].id})
  {
    hide Compilable, Compiled;
  }

  lemma AllDone(s: Snapshot, rank: map<string, nat>, done: seq<CompiledEntry>, seen: set<string>)
    requires CompiledUpTo(s, rank, |s.entries|, done, seen)
    ensures |done| == |s.entries| && forall e | e in s.entries :: Compilable(s, rank, e)
    ensures forall i | 0 <= i < |s.entries| :: Compiled(s, rank, s.entries[i], done[i])
  {
    hide Compilable, Compiled;
  }

  /** The indexes of a sealed snapshot can be built. */
  lemma SealedKeys(s: Snapshot, rank: map<string, nat>)
    requires Sealed(s, rank)
    ensures DistinctKeys(s.workflows, WORKFLOW_KEY) && DistinctKeys(s.references, REFERENCE_KEY)
    ensures DistinctKeys(s.nodes, NODE_KEY) && DistinctKeys(s.invocations, PATH_KEY)
  {
  }

  /**
   Compiling a sealed snapshot fails only for a reference chain of more than 32
   versions or an environment name that a root parameter already has; otherwise
   every entry gets its tree, its scope and truthful metadata, and the compiled
   nodes of all entries stay within the budgeted executions.
   */
  method CompilePlan(s: Snapshot, ghost rank: map<string, nat>)
    returns (r: Result<seq<CompiledEntry>, CompilePlanError>, compiledNodes: nat)
    requires Sealed(s, rank)
    ensures r.Ok? <==> forall e | e in s.entries :: Compilable(s, rank, e)
    ensures r.Err? ==> r.error == Uncompilable(TooDeep) || r.error == EnvironmentCollision
    ensures r.Ok? ==> |r.value| == |s.entries|
    ensures r.Ok? ==> forall i | 0 <= i < |s.entries| :: Compiled(s, rank, s.entries[i], r.value[i])
    ensures compiledNodes <= Budget.TotalPrice(GraphOf(s), rank, Roots(s)).executions
  {
    compiledNodes := 0;
    SealedKeys(s, rank);
    hide *;
    var workflows := BuildIndex(s.workflows, WORKFLOW_KEY);
    if workflows.None? {
      r := Err(DuplicateWorkflow);
      return;
    }
    var resolutions := BuildIndex(s.references, REFERENCE_KEY);
    if resolutions.None? {
      r := Err(DuplicateResolution);
      return;
    }
    var nodes := BuildIndex(s.nodes, NODE_KEY);
    if nodes.None? {
      r := Err(DuplicateNode);
      return;
    }
    var sites := BuildIndex(s.invocations, PATH_KEY);
    if sites.None? {
      r := Err(DuplicateInvocation);
      return;
    }
    var src := Sources(Graph(workflows.value, resolutions.value), nodes.value, CallsOf(s.invocations),
                       VersionsOf(sites.value));
    assert src == SourcesOf(s) && sites.value == Sites(s);
    r, compiledNodes := CompileEntries(src, sites.value, s, rank);
  }

  /** The loop over entries, with one node counter for all of them. */
  method CompileEntries(src: Sources, sites: map<string, Invocation>, s: Snapshot, ghost rank: map<string, nat>)
    returns (r: Result<seq<CompiledEntry>, CompilePlanError>, compiledNodes: nat)
    requires Sealed(s, rank) && src == SourcesOf(s) && sites == Sites(s)
    ensures r.Ok? <==> forall e | e in s.entries :: Compilable(s, rank, e)
    ensures r.Err? ==> r.error == Uncompilable(TooDeep) || r.error == EnvironmentCollision
    ensures r.Ok? ==> |r.value| == |s.entries|
    ensures r.Ok? ==> forall i | 0 <= i < |s.entries| :: Compiled(s, rank, s.entries[i], r.value[i])
    ensures Funded(s, rank, 0, 0)
    ensures compiledNodes <= Budget.TotalPrice(GraphOf(s), rank, Roots(s)).executions
  {
    FundedStart(s, rank);
    NothingDone(s, rank);
    assert src.g == GraphOf(s);
    hide *;
    var counter := new Counter();
    compiledNodes := 0;
    var result: seq<CompiledEntry>, seen: set<string> := [], {};
    for i := 0 to |s.entries|
      invariant CompiledUpTo(s, rank, i, result, seen) && Funded(s, rank, i, counter.n)
      invariant compiledNodes == counter.n
    {
      var entry := s.entries[i];
      ghost var before := counter.n;
      EntryReady(s, rank, i, result, seen, before);
      if entry.id in seen {
        r := Err(DuplicateEntry);
        return;
      }
      var compiled := CompileEntry(src, sites, s.environment, entry, counter, s, rank);
      compiledNodes := counter.n;
      FundedNext(s, rank, i, before, compiledNodes);
      FundedEnd(s, rank, i + 1, compiledNodes);
      if compiled.Err? {
        r := Err(compiled.error);
        return;
      }
      EntryDone(s, rank, i, result, seen, compiled.value);
      result, seen := result + [compiled.value], seen + {entry.id};
    }
    AllDone(s, rank, result, seen);
    FundedEnd(s, rank, |s.entries|, compiledNodes);
    r := Ok(result);
  }

  lemma NothingDone(s: Snapshot, rank: map<string, nat>)
    ensures CompiledUpTo(s, rank, 0, [], {})
  {
  }

  lemma EntryCompilesExactly(s: Snapshot, rank: map<string, nat>, e: Entry)
    requires Sealed(s, rank) && e in s.entries
    ensures Closed(GraphOf(s), rank) && e.version in rank && e.version in Roots(s)
    ensures Compilable(s, rank, e)
         == (Chain(GraphOf(s), rank, e.version) <= MAX_DEPTH && !Collides(e.values, s.environment))
  {
    var i :| 0 <= i < |s.entries| && s.entries[i] == e;
    EntryIsAt(s, rank, i);
    assert Roots(s)[i] == e.version;
  }

  /** The two ways a sealed snapshot can fail to compile, in terms of the plan alone. */
  lemma CompilesExactly(s: Snapshot, rank: map<string, nat>)
    requires Sealed(s, rank)
    ensures (forall e | e in s.entries :: Compilable(s, rank, e))
         == (!References.LongChain(GraphOf(s), Roots(s), MAX_DEPTH + 1)
             && forall e | e in s.entries :: !Collides(e.values, s.environment))
  {
    var g, roots := GraphOf(s), Roots(s);
    Sizes.ChainExceeds(g, rank, roots, MAX_DEPTH);
    assert forall r | r in roots :: exists e :: e in s.entries && e.version == r;
    hide *;
    forall e | e in s.entries
      ensures e.version in rank && e.version in roots
      ensures Compilable(s, rank, e) == (Chain(g, rank, e.version) <= MAX_DEPTH && !Collides(e.values, s.environment))
    {
      EntryCompilesExactly(s, rank, e);
    }
  }
}

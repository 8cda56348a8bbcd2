/**
 Cycle detection over workflow references: the explicit-stack, three-colour
 depth-first search of `validateReachableWorkflowReferences`
 (domain/execution/validation.go).
 */
module References {
  import opened Wrappers
  import opened Plan

  const MAX_REFERENCE_DEPTH: nat := 32
  const MAX_REACHABLE_WORKFLOWS: nat := 1000
  const MAX_REFERENCE_EDGES: nat := 5000

  datatype Verdict =
    | Accepted
    | TooDeep
    | Cycle(version: string)
    | TooManyWorkflows
    | TooManyEdges

  datatype Colour = Gray | Black

  /** A pending visit of a version, or the mark that its visit is over. */
  datatype Frame = Frame(version: string, depth: nat, exit: bool)

  // ----- what the stack says about the graph -----

  /** Position of the visit that pushed the frame at `q`: the nearest exit mark below it. */
  function Owner(stack: seq<Frame>, q: nat): (o: int)
    requires q <= |stack|
    ensures -1 <= o < q
    ensures o >= 0 ==> stack[o].exit
    ensures forall i | o < i < q :: !stack[i].exit
  {
    if q == 0 then -1 else if stack[q - 1].exit then q - 1 else Owner(stack, q - 1)
  }

  lemma OwnerIs(stack: seq<Frame>, o: nat)
    requires o < |stack| && stack[o].exit && forall i | o < i < |stack| :: !stack[i].exit
    ensures Owner(stack, |stack|) == o
  {
  }

  lemma {:induction false} OwnerPrefix(stack: seq<Frame>, more: seq<Frame>, q: nat)
    requires q <= |stack|
    ensures Owner(stack + more, q) == Owner(stack, q)
  {
    if q > 0 && !stack[q - 1].exit {
      OwnerPrefix(stack, more, q - 1);
    }
  }

  /** A frame continues the chain of the visit that pushed it. */
  ghost predicate Link(g: Graph, owner: Frame, f: Frame) {
    f.version in Successors(g, owner.version) && f.depth == owner.depth + 1
  }

  ghost predicate ChainedAt(g: Graph, stack: seq<Frame>, q: nat)
    requires q < |stack|
  {
    var o := Owner(stack, q);
    (q == 0 && stack[q].depth == 1) || (o >= 0 && Link(g, stack[o], stack[q]))
  }

  /** The exit marks of the stack form a chain of references that starts at the bottom frame. */
  ghost predicate Chained(g: Graph, stack: seq<Frame>) {
    forall q | 0 <= q < |stack| :: ChainedAt(g, stack, q)
  }

  lemma ChainedAtPrefix(g: Graph, stack: seq<Frame>, more: seq<Frame>, q: nat)
    requires q < |stack|
    ensures ChainedAt(g, stack + more, q) == ChainedAt(g, stack, q)
  {
    hide Link;
    OwnerPrefix(stack, more, q);
  }

  lemma ChainedPop(g: Graph, stack: seq<Frame>)
    requires stack != [] && Chained(g, stack)
    ensures Chained(g, stack[..|stack| - 1])
  {
    hide ChainedAt;
    var rest := stack[..|stack| - 1];
    assert rest + [stack[|stack| - 1]] == stack;
    forall q | 0 <= q < |rest|
      ensures ChainedAt(g, rest, q)
    {
      ChainedAtPrefix(g, rest, [stack[|stack| - 1]], q);
    }
  }

  lemma ChainedPush(g: Graph, stack: seq<Frame>, f: Frame)
    requires Chained(g, stack)
    requires ChainedAt(g, stack + [f], |stack|)
    ensures Chained(g, stack + [f])
  {
    hide ChainedAt;
    forall q | 0 <= q <= |stack|
      ensures ChainedAt(g, stack + [f], q)
    {
      if q < |stack| { ChainedAtPrefix(g, stack, [f], q); }
    }
  }

  lemma WalkExtend(g: Graph, p: seq<string>, w: string)
    requires Walk(g, p) && w in Successors(g, p[|p| - 1])
    ensures Walk(g, p + [w])
  {
  }

  /** The stack holds the exit mark of a version. */
  ghost predicate Marked(stack: seq<Frame>, v: string) {
    exists j :: 0 <= j < |stack| && stack[j].exit && stack[j].version == v
  }

  /** The chain from the bottom of the stack to any frame is a walk, as long as the frame is deep. */
  lemma {:induction false} ChainFromRoot(g: Graph, stack: seq<Frame>, q: nat) returns (p: seq<string>)
    requires q < |stack| && Chained(g, stack)
    ensures WalkBetween(g, p, stack[0].version, stack[q].version) && |p| == stack[q].depth
    ensures forall i | 0 <= i < |p| - 1 :: Marked(stack, p[i])
    decreases q
  {
    assert ChainedAt(g, stack, q);
    if q == 0 {
      p := [stack[0].version];
    } else {
      p := ChainFromRoot(g, stack, Owner(stack, q));
      assert Marked(stack, p[|p| - 1]);
      WalkExtend(g, p, stack[q].version);
      p := p + [stack[q].version];
    }
  }

  /** The chain from an exit mark up to any frame above it is a walk of at least one reference. */
  lemma {:induction false} ChainFromExit(g: Graph, stack: seq<Frame>, j: nat, q: nat) returns (p: seq<string>)
    requires j < q < |stack| && stack[j].exit && Chained(g, stack)
    ensures WalkBetween(g, p, stack[j].version, stack[q].version) && |p| >= 2
    decreases q
  {
    assert ChainedAt(g, stack, q);
    if Owner(stack, q) == j {
      p := [stack[j].version, stack[q].version];
    } else {
      p := ChainFromExit(g, stack, j, Owner(stack, q));
      WalkExtend(g, p, stack[q].version);
      p := p + [stack[q].version];
    }
  }

  /** Every version the search can meet. */
  function Universe(g: Graph, roots: seq<string>): set<string> {
    (set r | r in roots) + (set k | k in g.resolutions :: g.resolutions[k].version)
  }

  // ----- the colouring -----

  ghost predicate IsBlack(states: map<string, Colour>, v: string) {
    v in states && states[v] == Black
  }

  ghost predicate IsGray(states: map<string, Colour>, v: string) {
    v in states && states[v] == Gray
  }

  ghost predicate Above(stack: seq<Frame>, p: nat, w: string) {
    exists q :: p < q < |stack| && stack[q].version == w
  }

  /** Finished versions have only finished successors, finished earlier. */
  ghost predicate Finished(g: Graph, states: map<string, Colour>, rank: map<string, nat>) {
    && Ranked(g, rank)
    && (forall v :: v in rank <==> IsBlack(states, v))
  }

  /** Each version in progress has one exit mark, with all it still needs above that mark. */
  ghost predicate Progress(g: Graph, states: map<string, Colour>, stack: seq<Frame>) {
    && (forall p | 0 <= p < |stack| && stack[p].exit :: IsGray(states, stack[p].version))
    && (forall v | IsGray(states, v) :: exists p :: 0 <= p < |stack| && stack[p].exit && stack[p].version == v)
    && (forall p, q | 0 <= p < q < |stack| && stack[p].exit && stack[q].exit :: stack[p].version != stack[q].version)
    && (forall p, w | 0 <= p < |stack| && stack[p].exit && w in Successors(g, stack[p].version) ::
          IsBlack(states, w) || Above(stack, p, w))
  }

  /** Popping an exit mark finishes its version. */
  lemma FinishTop(g: Graph, states: map<string, Colour>, rank: map<string, nat>, stack: seq<Frame>, tick: nat)
    returns (rank': map<string, nat>)
    requires stack != [] && stack[|stack| - 1].exit
    requires Finished(g, states, rank) && Progress(g, states, stack)
    requires forall v | v in rank :: rank[v] < tick
    ensures rank' == rank[stack[|stack| - 1].version := tick]
    ensures Finished(g, states[stack[|stack| - 1].version := Black], rank')
    ensures Progress(g, states[stack[|stack| - 1].version := Black], stack[..|stack| - 1])
  {
    var top, rest := |stack| - 1, stack[..|stack| - 1];
    var v := stack[top].version;
    var states' := states[v := Black];
    rank' := rank[v := tick];
    forall w | w in Successors(g, v)
      ensures IsBlack(states, w)
    {
      assert IsBlack(states, w) || Above(stack, top, w);
    }
    assert v !in rank;
    forall x, w | x in rank' && w in Successors(g, x)
      ensures w in rank' && rank'[w] < rank'[x]
    {
      if x == v { assert w in rank && w != v; }
    }
    forall p, w | 0 <= p < |rest| && rest[p].exit && w in Successors(g, rest[p].version)
      ensures IsBlack(states', w) || Above(rest, p, w)
    {
      if !IsBlack(states, w) && w != v {
        var q :| p < q < |stack| && stack[q].version == w;
        assert rest[q].version == w;
      }
    }
    forall x | IsGray(states', x)
      ensures exists p :: 0 <= p < |rest| && rest[p].exit && rest[p].version == x
    {
      assert IsGray(states, x);
      var p :| 0 <= p < |stack| && stack[p].exit && stack[p].version == x;
      assert rest[p].exit && rest[p].version == x;
    }
  }

  /** Dropping a pending visit of a finished version loses nothing. */
  lemma DropFinished(g: Graph, states: map<string, Colour>, stack: seq<Frame>)
    requires stack != [] && !stack[|stack| - 1].exit && IsBlack(states, stack[|stack| - 1].version)
    requires Progress(g, states, stack)
    ensures Progress(g, states, stack[..|stack| - 1])
  {
    var rest := stack[..|stack| - 1];
    forall p, w | 0 <= p < |rest| && rest[p].exit && w in Successors(g, rest[p].version)
      ensures IsBlack(states, w) || Above(rest, p, w)
    {
      if !IsBlack(states, w) {
        var q :| p < q < |stack| && stack[q].version == w;
        assert rest[q].version == w;
      }
    }
    forall x | IsGray(states, x)
      ensures exists p :: 0 <= p < |rest| && rest[p].exit && rest[p].version == x
    {
      assert IsGray(states, x);
      var p :| 0 <= p < |stack| && stack[p].exit && stack[p].version == x;
      assert rest[p].exit && rest[p].version == x;
    }
  }

  /** Entering a fresh version: its exit mark replaces the visit and all its successors go above. */
  lemma EnterFresh(g: Graph, states: map<string, Colour>, base: seq<Frame>, f: Frame, pushed: seq<Frame>)
    requires !f.exit && f.version !in states
    requires Progress(g, states, base + [f])
    requires forall i | 0 <= i < |pushed| :: !pushed[i].exit
    requires forall w | w in Successors(g, f.version) :: exists i :: 0 <= i < |pushed| && pushed[i].version == w
    ensures Progress(g, states[f.version := Gray], base + [f.(exit := true)] + pushed)
  {
    var old_, states' := base + [f], states[f.version := Gray];
    var stack := base + [f.(exit := true)] + pushed;
    var top := |base|;
    forall p, w | 0 <= p < |stack| && stack[p].exit && w in Successors(g, stack[p].version)
      ensures IsBlack(states', w) || Above(stack, p, w)
    {
      if p == top {
        var i :| 0 <= i < |pushed| && pushed[i].version == w;
        assert stack[top + 1 + i].version == w;
      } else {
        assert p < top && old_[p] == stack[p];
        if !IsBlack(states, w) {
          var q :| p < q < |old_| && old_[q].version == w;
          assert stack[q].version == w;
        }
      }
    }
    forall x | IsGray(states', x)
      ensures exists p :: 0 <= p < |stack| && stack[p].exit && stack[p].version == x
    {
      if x == f.version {
        assert stack[top].exit;
      } else {
        assert IsGray(states, x);
        var p :| 0 <= p < |old_| && old_[p].exit && old_[p].version == x;
        assert stack[p].exit && stack[p].version == x;
      }
    }
    forall p | 0 <= p < |stack| && stack[p].exit
      ensures IsGray(states', stack[p].version)
    {
      if p < top { assert old_[p] == stack[p]; }
    }
    forall p, q | 0 <= p < q < |stack| && stack[p].exit && stack[q].exit
      ensures stack[p].version != stack[q].version
    {
      assert old_[p] == stack[p];
      if q < top { assert old_[q] == stack[q]; }
    }
  }

  // ----- the search -----

  /** Number of steps in a list, repeat children included. */
  function Size(steps: seq<Step>): nat {
    if steps == [] then 0 else SizeOf(steps[0]) + Size(steps[1..])
  }

  function SizeOf(step: Step): (n: nat)
    ensures n > 0
  {
    match step
    case RepeatStep(_, _, children) => 1 + Size(children)
    case _ => 1
  }

  lemma {:induction false} SizeAppend(a: seq<Step>, b: seq<Step>)
    ensures Size(a + b) == Size(a) + Size(b)
  {
    if a == [] {
      assert a + b == b;
    } else {
      SizeAppend(a[1..], b);
      assert (a + b)[1..] == a[1..] + b;
    }
  }

  lemma LastStep(steps: seq<Step>)
    requires steps != []
    ensures var last, init := steps[|steps| - 1], steps[..|steps| - 1];
            && RefIds(steps) == RefIds(init) + RefIdsOf(last)
            && RefBag(steps) == RefBag(init) + RefBagOf(last)
            && Size(steps) == Size(init) + SizeOf(last)
  {
    var last, init := steps[|steps| - 1], steps[..|steps| - 1];
    assert steps == init + [last];
    RefIdsAppend(init, [last]);
    RefBagAppend(init, [last]);
    SizeAppend(init, [last]);
    assert [last][1..] == [];
  }

  /** Number of reference steps anywhere in a version. */
  function EdgeCount(g: Graph, v: string): nat {
    |RefBag(StepsOf(g, v))|
  }

  ghost predicate Names(pushed: seq<Frame>, w: string) {
    exists i :: 0 <= i < |pushed| && pushed[i].version == w
  }

  /** The pushed visits are those of the resolved references in `done`. */
  ghost predicate Pushed(g: Graph, version: string, depth: nat, done: set<string>, pushed: seq<Frame>) {
    && (forall f | f in pushed :: Link(g, Frame(version, depth, false), f) && !f.exit)
    && (forall id | id in done && EdgeKey(version, id) in g.resolutions ::
          Names(pushed, g.resolutions[EdgeKey(version, id)].version))
  }

  lemma PushedNext(g: Graph, version: string, depth: nat, done: set<string>, pushed: seq<Frame>, id: string)
    requires Pushed(g, version, depth, done, pushed) && EdgeKey(version, id) in g.resolutions
    requires id in RefIds(StepsOf(g, version))
    ensures var frame := Frame(g.resolutions[EdgeKey(version, id)].version, depth + 1, false);
            Pushed(g, version, depth, done + {id}, pushed + [frame])
  {
    var target := g.resolutions[EdgeKey(version, id)].version;
    var pushed' := pushed + [Frame(target, depth + 1, false)];
    assert pushed'[|pushed|].version == target;
    forall x | x in done + {id} && EdgeKey(version, x) in g.resolutions
      ensures Names(pushed', g.resolutions[EdgeKey(version, x)].version)
    {
      if x != id {
        var i :| 0 <= i < |pushed| && pushed[i].version == g.resolutions[EdgeKey(version, x)].version;
        assert pushed'[i] == pushed[i];
      }
    }
  }

  /** Pushes a visit for every resolved reference nested in the steps of `version`. */
  method PushReferences(g: Graph, version: string, depth: nat, edges0: nat)
    returns (pushed: seq<Frame>, edges: nat, tooMany: bool)
    requires edges0 <= MAX_REFERENCE_EDGES
    ensures tooMany <==> edges0 + EdgeCount(g, version) > MAX_REFERENCE_EDGES
    ensures !tooMany ==> edges == edges0 + EdgeCount(g, version)
    ensures !tooMany ==> Pushed(g, version, depth, RefIds(StepsOf(g, version)), pushed)
  {
    pushed, edges, tooMany := [], edges0, false;
    var steps := StepsOf(g, version);
    ghost var done: set<string>, all, total := {}, RefIds(steps), edges0 + |RefBag(steps)|;
    assert RefIds([]) == {} && |RefBag([])| == 0;
    while steps != []
      invariant edges <= MAX_REFERENCE_EDGES && edges + |RefBag(steps)| == total
      invariant done + RefIds(steps) == all
      invariant Pushed(g, version, depth, done, pushed)
      decreases Size(steps)
    {
      LastStep(steps);
      var step := steps[|steps| - 1];
      steps := steps[..|steps| - 1];
      if step.RepeatStep? {
        RefIdsAppend(steps, step.children);
        RefBagAppend(steps, step.children);
        SizeAppend(steps, step.children);
        steps := steps + step.children;
      }
      hide Pushed, RefIds, RefBag, Size, StepsOf;
      if step.ReferenceStep? {
        edges := edges + 1;
        if edges > MAX_REFERENCE_EDGES { tooMany := true; return; }
        var key := EdgeKey(version, step.id);
        if key in g.resolutions {
          PushedNext(g, version, depth, done, pushed, step.id);
          pushed := pushed + [Frame(g.resolutions[key].version, depth + 1, false)];
        } else {
          PushedNone(g, version, depth, done, pushed, step.id);
        }
        done := done + {step.id};
      }
    }
  }

  lemma PushedNone(g: Graph, version: string, depth: nat, done: set<string>, pushed: seq<Frame>, id: string)
    requires Pushed(g, version, depth, done, pushed) && EdgeKey(version, id) !in g.resolutions
    ensures Pushed(g, version, depth, done + {id}, pushed)
  {
  }

  /** A chain of references from a root that is longer than the limit. */
  ghost predicate LongChain(g: Graph, roots: seq<string>, length: nat) {
    exists p :: Walk(g, p) && p[0] in roots && |p| == length
  }

  /**
   A chain from a root that is longer than the limit, and that reaches nothing an
   earlier root reaches before its last version: finished versions are not entered
   again, so only such chains count.
   */
  ghost predicate FreshChain(g: Graph, roots: seq<string>, length: nat) {
    exists n, p :: 0 <= n < |roots| && FreshWalk(g, roots, n, p) && |p| == length
  }

  ghost predicate FreshWalk(g: Graph, roots: seq<string>, n: nat, p: seq<string>)
    requires n < |roots|
  {
    && Walk(g, p) && p[0] == roots[n]
    && forall i | 0 <= i < |p| - 1 :: !Reachable(g, roots[..n], p[i])
  }

  /** A reachable version that some chain of references leads back to. */
  ghost predicate OnReachableCycle(g: Graph, roots: seq<string>, v: string) {
    && Reachable(g, roots, v)
    && exists p :: WalkBetween(g, p, v, v) && |p| >= 2
  }

  lemma ChainedPushAll(g: Graph, base: seq<Frame>, f: Frame, pushed: seq<Frame>, n: nat)
    requires n <= |pushed| && f.exit && Chained(g, base + [f])
    requires forall p | p in pushed :: p.version in Successors(g, f.version) && p.depth == f.depth + 1 && !p.exit
    ensures Chained(g, base + [f] + pushed[..n])
  {
    if n == 0 {
      assert base + [f] + pushed[..0] == base + [f];
    } else {
      ChainedPushAll(g, base, f, pushed, n - 1);
      var stack := base + [f] + pushed[..n - 1];
      var p := pushed[n - 1];
      assert p in pushed;
      OwnerPrefix(stack, [p], |stack|);
      OwnerIs(stack, |base|);
      assert stack[|base|] == f && Link(g, f, p);
      assert ChainedAt(g, stack + [p], |stack|);
      ChainedPush(g, stack, p);
      assert stack + [pushed[n - 1]] == base + [f] + pushed[..n];
    }
  }

  /** Replacing the top visit by its exit mark keeps the chain. */
  lemma ChainedMark(g: Graph, base: seq<Frame>, f: Frame)
    requires Chained(g, base + [f])
    ensures Chained(g, base + [f.(exit := true)])
  {
    ChainedPop(g, base + [f]);
    assert (base + [f])[..|base|] == base;
    OwnerPrefix(base, [f], |base|);
    OwnerPrefix(base, [f.(exit := true)], |base|);
    assert ChainedAt(g, base + [f], |base|);
    ChainedPush(g, base, f.(exit := true));
  }

  /** A tick later than every rank given so far. */
  ghost function NextTick(rank: map<string, nat>): (t: nat)
    ensures forall v | v in rank :: rank[v] < t
  {
    if rank == map[] then 0 else
    var v :| v in rank;
    var t := NextTick(rank - {v});
    assert forall w | w in rank :: w == v || (w in rank - {v} && (rank - {v})[w] == rank[w]);
    if rank[v] < t then t else rank[v] + 1
  }

  ghost predicate AllReachable(g: Graph, roots: seq<string>, versions: set<string>) {
    forall v | v in versions :: Reachable(g, roots, v)
  }

  /** Many distinct versions, all reachable from the roots. */
  ghost predicate ManyReachable(g: Graph, roots: seq<string>, count: nat) {
    exists s: set<string> :: |s| == count && AllReachable(g, roots, s)
  }

  /** Reference steps of a list of versions, repeated ones counted each time. */
  function EdgeTotal(g: Graph, versions: seq<string>): nat {
    if versions == [] then 0
    else EdgeTotal(g, versions[..|versions| - 1]) + EdgeCount(g, versions[|versions| - 1])
  }

  function Elements(versions: seq<string>): set<string> {
    set v | v in versions
  }

  /** Distinct reachable versions that together hold more than `count` reference steps. */
  ghost predicate ManyEdges(g: Graph, roots: seq<string>, count: nat) {
    exists versions :: Distinct(versions) && EdgeTotal(g, versions) > count && AllReachable(g, roots, Elements(versions))
  }

  /** The versions that can be reached, each named once. */
  ghost predicate Lists(g: Graph, roots: seq<string>, versions: seq<string>) {
    && Distinct(versions) && AllReachable(g, roots, Elements(versions))
    && forall v | Reachable(g, roots, v) :: v in Elements(versions)
  }

  /** The reachable versions can be listed, and neither they nor their reference steps are too many. */
  ghost predicate WithinLimits(g: Graph, roots: seq<string>) {
    exists versions :: Lists(g, roots, versions)
      && |versions| <= MAX_REACHABLE_WORKFLOWS && EdgeTotal(g, versions) <= MAX_REFERENCE_EDGES
  }

  /** What a verdict claims about the graph. */
  ghost predicate Justified(g: Graph, roots: seq<string>, verdict: Verdict) {
    match verdict
    case Accepted => Acyclic(g, roots) && WithinLimits(g, roots)
    case Cycle(v) => OnReachableCycle(g, roots, v)
    case TooDeep => FreshChain(g, roots, MAX_REFERENCE_DEPTH + 1)
    case TooManyWorkflows => ManyReachable(g, roots, MAX_REACHABLE_WORKFLOWS + 1)
    case TooManyEdges => ManyEdges(g, roots, MAX_REFERENCE_EDGES)
  }

  /** What the search knows between two turns of its inner loop. */
  ghost predicate Search(g: Graph, roots: seq<string>, root: string,
    states: map<string, Colour>, rank: map<string, nat>, stack: seq<Frame>)
  {
    && Finished(g, states, rank) && Progress(g, states, stack) && Chained(g, stack)
    && (forall f | f in stack :: f.version in Universe(g, roots))
    && (forall v | v in states :: Reachable(g, roots, v))
    && (if stack == [] then root in rank else stack[0].version == root)
  }

  lemma SearchReaches(g: Graph, roots: seq<string>, root: string,
    states: map<string, Colour>, rank: map<string, nat>, stack: seq<Frame>, q: nat) returns (p: seq<string>)
    requires Search(g, roots, root, states, rank, stack) && root in roots && q < |stack|
    ensures WalkBetween(g, p, root, stack[q].version) && |p| == stack[q].depth
    ensures Reachable(g, roots, stack[q].version)
  {
    p := ChainFromRoot(g, stack, q);
  }

  lemma SearchFinish(g: Graph, roots: seq<string>, root: string,
    states: map<string, Colour>, rank: map<string, nat>, stack: seq<Frame>) returns (rank': map<string, nat>)
    requires Search(g, roots, root, states, rank, stack) && root in roots
    requires stack != [] && stack[|stack| - 1].exit
    ensures Search(g, roots, root, states[stack[|stack| - 1].version := Black], rank', stack[..|stack| - 1])
    ensures rank.Keys <= rank'.Keys && stack[|stack| - 1].version in states
  {
    var p := SearchReaches(g, roots, root, states, rank, stack, |stack| - 1);
    hide Chained;
    rank' := FinishTop(g, states, rank, stack, NextTick(rank));
    ChainedPop(g, stack);
  }

  lemma SearchDrop(g: Graph, roots: seq<string>, root: string,
    states: map<string, Colour>, rank: map<string, nat>, stack: seq<Frame>)
    requires Search(g, roots, root, states, rank, stack)
    requires stack != [] && !stack[|stack| - 1].exit
    requires stack[|stack| - 1].version in states && states[stack[|stack| - 1].version] == Black
    ensures Search(g, roots, root, states, rank, stack[..|stack| - 1])
  {
    assert IsBlack(states, stack[|stack| - 1].version);
    hide Chained, Progress;
    DropFinished(g, states, stack);
    ChainedPop(g, stack);
  }

  lemma PushedAll(g: Graph, f: Frame, pushed: seq<Frame>)
    requires Pushed(g, f.version, f.depth, RefIds(StepsOf(g, f.version)), pushed)
    ensures forall p | p in pushed :: Link(g, f, p) && !p.exit
    ensures forall w | w in Successors(g, f.version) :: exists i :: 0 <= i < |pushed| && pushed[i].version == w
  {
    forall w | w in Successors(g, f.version)
      ensures exists i :: 0 <= i < |pushed| && pushed[i].version == w
    {
      var id :| id in RefIds(StepsOf(g, f.version)) && EdgeKey(f.version, id) in g.resolutions
        && g.resolutions[EdgeKey(f.version, id)].version == w;
      assert Names(pushed, w);
    }
  }

  lemma SearchEnter(g: Graph, roots: seq<string>, root: string,
    states: map<string, Colour>, rank: map<string, nat>, base: seq<Frame>, f: Frame, pushed: seq<Frame>)
    requires Search(g, roots, root, states, rank, base + [f]) && root in roots
    requires !f.exit && f.version !in states
    requires Pushed(g, f.version, f.depth, RefIds(StepsOf(g, f.version)), pushed)
    ensures Search(g, roots, root, states[f.version := Gray], rank, base + [f.(exit := true)] + pushed)
  {
    var p := SearchReaches(g, roots, root, states, rank, base + [f], |base|);
    PushedAll(g, f, pushed);
    hide Pushed, RefIds, StepsOf;
    hide Chained, Progress;
    EnterFresh(g, states, base, f, pushed);
    ChainedMark(g, base, f);
    ChainedPushAll(g, base, f.(exit := true), pushed, |pushed|);
    assert pushed[..|pushed|] == pushed;
    assert f in base + [f];
    forall x | x in base + [f.(exit := true)] + pushed
      ensures x.version in Universe(g, roots)
    {
      if x in pushed {
        assert x.version in Successors(g, f.version);
      } else if x in base {
        assert x in base + [f];
      }
    }
  }

  lemma SearchMeetsCycle(g: Graph, roots: seq<string>, root: string,
    states: map<string, Colour>, rank: map<string, nat>, stack: seq<Frame>)
    requires Search(g, roots, root, states, rank, stack) && root in roots
    requires stack != [] && !stack[|stack| - 1].exit
    requires stack[|stack| - 1].version in states && states[stack[|stack| - 1].version] == Gray
    ensures Justified(g, roots, Cycle(stack[|stack| - 1].version))
  {
    var top := |stack| - 1;
    assert IsGray(states, stack[top].version);
    var p := SearchReaches(g, roots, root, states, rank, stack, top);
    var j :| 0 <= j < |stack| && stack[j].exit && stack[j].version == stack[top].version;
    var c := ChainFromExit(g, stack, j, top);
  }

  ghost predicate PrefixIn(roots: seq<string>, n: nat, keys: set<string>)
    requires n <= |roots|
  {
    forall i | 0 <= i < n :: roots[i] in keys
  }

  /** What an earlier root reaches is finished, so no version in progress is reached from one. */
  lemma GrayIsFresh(g: Graph, roots: seq<string>, n: nat, states: map<string, Colour>, rank0: map<string, nat>,
    rank: map<string, nat>, v: string)
    requires n < |roots| && Ranked(g, rank0) && PrefixIn(roots, n, rank0.Keys) && rank0.Keys <= rank.Keys
    requires Finished(g, states, rank) && IsGray(states, v)
    ensures !Reachable(g, roots[..n], v)
  {
    if Reachable(g, roots[..n], v) {
      var p :| Walk(g, p) && p[0] in roots[..n] && p[|p| - 1] == v;
      RankFalls(g, rank0, p);
    }
  }

  lemma SearchMeetsDepth(g: Graph, roots: seq<string>, n: nat, states: map<string, Colour>, rank0: map<string, nat>,
    rank: map<string, nat>, stack: seq<Frame>)
    requires n < |roots| && Search(g, roots, roots[n], states, rank, stack)
    requires Ranked(g, rank0) && PrefixIn(roots, n, rank0.Keys) && rank0.Keys <= rank.Keys
    requires stack != [] && stack[|stack| - 1].depth > MAX_REFERENCE_DEPTH
    ensures Justified(g, roots, TooDeep)
  {
    var p := ChainFromRoot(g, stack, |stack| - 1);
    var q := p[..MAX_REFERENCE_DEPTH + 1];
    assert Walk(g, q) && q[0] == roots[n] && |q| == MAX_REFERENCE_DEPTH + 1;
    forall i | 0 <= i < |q| - 1
      ensures !Reachable(g, roots[..n], q[i])
    {
      assert Marked(stack, p[i]);
      var j :| 0 <= j < |stack| && stack[j].exit && stack[j].version == p[i];
      GrayIsFresh(g, roots, n, states, rank0, rank, q[i]);
    }
    hide Walk, Reachable, Search;
    assert FreshWalk(g, roots, n, q);
  }

  /** Such a chain is in particular a long one. */
  lemma FreshIsLong(g: Graph, roots: seq<string>, length: nat)
    requires FreshChain(g, roots, length)
    ensures LongChain(g, roots, length)
  {
    var n, p :| 0 <= n < |roots| && FreshWalk(g, roots, n, p) && |p| == length;
    assert p[0] in roots;
  }

  lemma SearchStart(g: Graph, roots: seq<string>, n: nat, states: map<string, Colour>, rank: map<string, nat>)
    requires n < |roots| && Finished(g, states, rank)
    requires forall v | v in states :: Reachable(g, roots, v) && states[v] == Black
    ensures Search(g, roots, roots[n], states, rank, [Frame(roots[n], 1, false)])
  {
    var stack := [Frame(roots[n], 1, false)];
    assert ChainedAt(g, stack, 0);
  }

  lemma SearchDone(g: Graph, roots: seq<string>, root: string, states: map<string, Colour>, rank: map<string, nat>)
    requires Search(g, roots, root, states, rank, [])
    ensures Finished(g, states, rank) && root in rank
    ensures forall v | v in states :: Reachable(g, roots, v) && states[v] == Black
  {
    forall v | v in states
      ensures states[v] == Black
    {
      assert !IsGray(states, v);
    }
  }

  /** Colouring a fresh version uses up one version of the universe. */
  lemma SearchUncolours(g: Graph, roots: seq<string>, root: string,
    states: map<string, Colour>, rank: map<string, nat>, base: seq<Frame>, f: Frame)
    requires Search(g, roots, root, states, rank, base + [f]) && f.version !in states
    ensures Universe(g, roots) - (states.Keys + {f.version}) < Universe(g, roots) - states.Keys
  {
    assert f in base + [f];
    assert f.version in Universe(g, roots) - states.Keys;
  }

  lemma SearchIsMany(g: Graph, roots: seq<string>, root: string,
    states: map<string, Colour>, rank: map<string, nat>, base: seq<Frame>, f: Frame)
    requires Search(g, roots, root, states, rank, base + [f]) && root in roots && f.version !in states
    requires |states| == MAX_REACHABLE_WORKFLOWS
    ensures Justified(g, roots, TooManyWorkflows)
  {
    var p := SearchReaches(g, roots, root, states, rank, base + [f], |base|);
    assert |states.Keys + {f.version}| == |states| + 1 && AllReachable(g, roots, states.Keys + {f.version});
  }

  lemma FinishedIsRanked(g: Graph, states: map<string, Colour>, rank: map<string, nat>)
    requires Finished(g, states, rank)
    ensures Ranked(g, rank)
  {
  }

  lemma FinishedIsBlack(g: Graph, states: map<string, Colour>, rank: map<string, nat>, v: string)
    requires Finished(g, states, rank) && v in states && states[v] == Black
    ensures v in rank
  {
    assert IsBlack(states, v);
  }

  lemma PrefixInGrows(roots: seq<string>, n: nat, keys: set<string>, more: set<string>)
    requires n < |roots| && PrefixIn(roots, n, keys) && keys <= more && roots[n] in more
    ensures PrefixIn(roots, n + 1, more)
  {
  }

  /** `order` lists the coloured versions, whose reference steps have been counted. */
  ghost predicate Counted(g: Graph, states: map<string, Colour>, order: seq<string>, edges: nat) {
    Distinct(order) && Elements(order) == states.Keys && EdgeTotal(g, order) == edges
  }

  lemma CountedNext(g: Graph, states: map<string, Colour>, order: seq<string>, edges: nat, v: string, edges': nat)
    returns (order': seq<string>)
    requires Counted(g, states, order, edges) && v !in states && edges' == edges + EdgeCount(g, v)
    ensures Counted(g, states[v := Gray], order', edges')
  {
    order' := order + [v];
    assert order'[..|order|] == order;
    hide EdgeCount;
    assert Elements(order') == Elements(order) + {v} == states[v := Gray].Keys;
    forall i | 0 <= i < |order|
      ensures order[i] != v
    {
      assert order[i] in Elements(order);
    }
  }

  lemma SameCounted(g: Graph, before: map<string, Colour>, states: map<string, Colour>, order: seq<string>, edges: nat)
    requires Counted(g, before, order, edges) && before.Keys == states.Keys
    ensures Counted(g, states, order, edges)
  {
  }

  lemma {:induction false} DistinctSize(versions: seq<string>)
    requires Distinct(versions)
    ensures |versions| == |Elements(versions)|
  {
    if versions != [] {
      var init, last := versions[..|versions| - 1], versions[|versions| - 1];
      DistinctSize(init);
      assert Elements(versions) == Elements(init) + {last};
      assert last !in init;
    }
  }

  lemma SearchHasManyEdges(g: Graph, roots: seq<string>, root: string, states: map<string, Colour>,
    rank: map<string, nat>, base: seq<Frame>, f: Frame, order: seq<string>, edges: nat)
    requires Search(g, roots, root, states, rank, base + [f]) && root in roots && f.version !in states
    requires Counted(g, states, order, edges)
    requires edges + EdgeCount(g, f.version) > MAX_REFERENCE_EDGES
    ensures Justified(g, roots, TooManyEdges)
  {
    var p := SearchReaches(g, roots, root, states, rank, base + [f], |base|);
    var versions := CountedNext(g, states, order, edges, f.version, edges + EdgeCount(g, f.version));
    hide Finished, Progress, Chained, Reachable, EdgeTotal;
    assert AllReachable(g, roots, Elements(versions));
  }

  /** Once every root is finished, exactly the reachable versions are coloured. */
  lemma FinishedIsReachable(g: Graph, roots: seq<string>, states: map<string, Colour>, rank: map<string, nat>, v: string)
    requires Finished(g, states, rank) && PrefixIn(roots, |roots|, rank.Keys) && Reachable(g, roots, v)
    ensures v in states
  {
    var p :| Walk(g, p) && p[0] in roots && p[|p| - 1] == v;
    RankFalls(g, rank, p);
    assert IsBlack(states, v);
  }

  lemma FinishedIsAccepted(g: Graph, roots: seq<string>, states: map<string, Colour>, rank: map<string, nat>,
    order: seq<string>, edges: nat)
    requires Finished(g, states, rank) && PrefixIn(roots, |roots|, rank.Keys)
    requires forall v | v in states :: Reachable(g, roots, v) && states[v] == Black
    requires Counted(g, states, order, edges) && edges <= MAX_REFERENCE_EDGES && |states| <= MAX_REACHABLE_WORKFLOWS
    ensures Justified(g, roots, Accepted)
  {
    assert Acyclic(g, roots);
    FinishedIsListed(g, roots, states, rank, order);
    DistinctSize(order);
    assert |order| == |states.Keys|;
    hide Finished, PrefixIn, Lists, Acyclic, EdgeTotal, Distinct, Elements, Reachable;
    assert WithinLimits(g, roots);
  }

  lemma FinishedIsListed(g: Graph, roots: seq<string>, states: map<string, Colour>, rank: map<string, nat>, order: seq<string>)
    requires Finished(g, states, rank) && PrefixIn(roots, |roots|, rank.Keys)
    requires forall v | v in states :: Reachable(g, roots, v) && states[v] == Black
    requires Distinct(order) && Elements(order) == states.Keys
    ensures Lists(g, roots, order)
  {
    hide Finished, Reachable, PrefixIn;
    forall v | Reachable(g, roots, v)
      ensures v in Elements(order)
    {
      FinishedIsReachable(g, roots, states, rank, v);
    }
    assert Lists(g, roots, order);
  }

  /** Leaving one version out takes just its reference steps from the total. */
  lemma {:induction false} EdgeTotalWithout(g: Graph, versions: seq<string>, i: nat)
    requires i < |versions|
    ensures EdgeTotal(g, versions)
         == EdgeTotal(g, versions[..i] + versions[i + 1..]) + EdgeCount(g, versions[i])
  {
    hide EdgeCount;
    var init, rest := versions[..|versions| - 1], versions[..i] + versions[i + 1..];
    if i == |versions| - 1 {
      assert rest == init;
    } else {
      EdgeTotalWithout(g, init, i);
      assert rest[..|rest| - 1] == init[..i] + init[i + 1..];
      assert rest[|rest| - 1] == versions[|versions| - 1];
    }
  }

  /** A list of distinct versions holds no more reference steps than any list that includes it. */
  lemma {:induction false} EdgeTotalGrows(g: Graph, some: seq<string>, all: seq<string>)
    requires Distinct(some) && Elements(some) <= Elements(all)
    ensures EdgeTotal(g, some) <= EdgeTotal(g, all)
  {
    hide EdgeCount;
    if some != [] {
      var init, last := some[..|some| - 1], some[|some| - 1];
      assert last in Elements(some);
      var i :| 0 <= i < |all| && all[i] == last;
      var rest := all[..i] + all[i + 1..];
      forall v | v in Elements(init)
        ensures v in Elements(rest)
      {
        assert v in Elements(some);
        var k :| 0 <= k < |all| && all[k] == v;
        assert v != last;
        if k < i { assert rest[k] == v; } else { assert rest[k - 1] == v; }
      }
      EdgeTotalGrows(g, init, rest);
      EdgeTotalWithout(g, all, i);
    }
  }

  lemma EdgesAreFew(g: Graph, roots: seq<string>, all: seq<string>)
    requires Lists(g, roots, all) && EdgeTotal(g, all) <= MAX_REFERENCE_EDGES
    ensures !ManyEdges(g, roots, MAX_REFERENCE_EDGES)
  {
    hide Reachable, EdgeTotal;
    if ManyEdges(g, roots, MAX_REFERENCE_EDGES) {
      var some :| Distinct(some) && EdgeTotal(g, some) > MAX_REFERENCE_EDGES && AllReachable(g, roots, Elements(some));
      EdgeTotalGrows(g, some, all);
    }
  }

  lemma WorkflowsAreFew(g: Graph, roots: seq<string>, all: seq<string>)
    requires Lists(g, roots, all) && |all| <= MAX_REACHABLE_WORKFLOWS
    ensures !ManyReachable(g, roots, MAX_REACHABLE_WORKFLOWS + 1)
  {
    hide Reachable;
    if ManyReachable(g, roots, MAX_REACHABLE_WORKFLOWS + 1) {
      var s: set<string> :| |s| == MAX_REACHABLE_WORKFLOWS + 1 && AllReachable(g, roots, s);
      DistinctSize(all);
      SubsetSize(s, Elements(all));
    }
  }

  /** The two size limits are properties of the graph: where one is exceeded, no search can accept. */
  lemma LimitsExclude(g: Graph, roots: seq<string>)
    requires WithinLimits(g, roots)
    ensures !Justified(g, roots, TooManyEdges) && !Justified(g, roots, TooManyWorkflows)
  {
    var all :| Lists(g, roots, all) && |all| <= MAX_REACHABLE_WORKFLOWS && EdgeTotal(g, all) <= MAX_REFERENCE_EDGES;
    EdgesAreFew(g, roots, all);
    WorkflowsAreFew(g, roots, all);
    hide Lists, EdgeTotal, ManyEdges, ManyReachable;
  }

  lemma SameSize<K, V>(a: map<K, V>, b: map<K, V>)
    requires a.Keys == b.Keys
    ensures |a| == |b|
  {
    assert |a| == |a.Keys| && |b| == |b.Keys|;
  }

  lemma GrowsByOne<K, V>(a: map<K, V>, b: map<K, V>, k: K)
    requires k !in a && b.Keys == a.Keys + {k}
    ensures |b| == |a| + 1
  {
    assert |a| == |a.Keys| && |b| == |b.Keys|;
  }

  /** The inner loop: explores everything reachable from one root that is not yet finished. */
  method SearchFrom(g: Graph, roots: seq<string>, n: nat, states0: map<string, Colour>,
      reachable0: nat, edges0: nat, ghost rank0: map<string, nat>, ghost order0: seq<string>)
    returns (verdict: Verdict, states: map<string, Colour>, reachable: nat, edges: nat,
      ghost rank: map<string, nat>, ghost order: seq<string>)
    requires n < |roots| && Search(g, roots, roots[n], states0, rank0, [Frame(roots[n], 1, false)])
    requires edges0 <= MAX_REFERENCE_EDGES && reachable0 == |states0| <= MAX_REACHABLE_WORKFLOWS
    requires Counted(g, states0, order0, edges0) && Ranked(g, rank0) && PrefixIn(roots, n, rank0.Keys)
    ensures !verdict.Accepted? ==> Justified(g, roots, verdict)
    ensures verdict.Accepted? ==> Search(g, roots, roots[n], states, rank, []) && rank0.Keys <= rank.Keys
    ensures verdict.Accepted? ==> edges <= MAX_REFERENCE_EDGES && reachable == |states| <= MAX_REACHABLE_WORKFLOWS
    ensures verdict.Accepted? ==> Counted(g, states, order, edges)
  {
    hide *;
    states, reachable, edges, rank, order := states0, reachable0, edges0, rank0, order0;
    var stack := [Frame(roots[n], 1, false)];
    while stack != []
      invariant edges <= MAX_REFERENCE_EDGES && reachable == |states| <= MAX_REACHABLE_WORKFLOWS
      invariant Search(g, roots, roots[n], states, rank, stack)
      invariant Counted(g, states, order, edges)
      invariant rank0.Keys <= rank.Keys
      decreases Universe(g, roots) - states.Keys, |stack|
    {
      var current := stack[|stack| - 1];
      var rest := stack[..|stack| - 1];
      assert stack == rest + [current];
      if current.exit {
        rank := SearchFinish(g, roots, roots[n], states, rank, stack);
        ghost var before := states;
        states := states[current.version := Black];
        assert states.Keys == before.Keys;
        SameSize(before, states);
        SameCounted(g, before, states, order, edges);
        stack := rest;
        continue;
      }
      if current.depth > MAX_REFERENCE_DEPTH {
        SearchMeetsDepth(g, roots, n, states, rank0, rank, stack);
        verdict := TooDeep;
        return;
      }
      if current.version in states && states[current.version] == Gray {
        SearchMeetsCycle(g, roots, roots[n], states, rank, stack);
        verdict := Cycle(current.version);
        return;
      }
      if current.version in states && states[current.version] == Black {
        SearchDrop(g, roots, roots[n], states, rank, stack);
        stack := rest;
        continue;
      }
      ghost var before := states;
      states := states[current.version := Gray];
      SearchUncolours(g, roots, roots[n], before, rank, rest, current);
      assert states.Keys == before.Keys + {current.version};
      GrowsByOne(before, states, current.version);
      reachable := reachable + 1;
      if reachable > MAX_REACHABLE_WORKFLOWS {
        SearchIsMany(g, roots, roots[n], before, rank, rest, current);
        verdict := TooManyWorkflows;
        return;
      }
      var pushed, edges', tooMany := PushReferences(g, current.version, current.depth, edges);
      if tooMany {
        SearchHasManyEdges(g, roots, roots[n], before, rank, rest, current, order, edges);
        verdict := TooManyEdges;
        return;
      }
      SearchEnter(g, roots, roots[n], before, rank, rest, current, pushed);
      order := CountedNext(g, before, order, edges, current.version, edges');
      edges := edges';
      stack := rest + [current.(exit := true)] + pushed;
    }
    verdict := Accepted;
  }

  /**
   The search. An accepted graph has no reachable cycle and keeps both size
   limits; a reported cycle is a genuine one; a limit is reported only when it
   really is exceeded.
   */
  method ValidateReachable(roots: seq<string>, g: Graph) returns (verdict: Verdict)
    ensures Justified(g, roots, verdict)
  {
    var states: map<string, Colour> := map[];
    var reachable: nat, edges: nat := 0, 0;
    ghost var rank: map<string, nat>, order: seq<string> := map[], [];
    assert Finished(g, states, rank) && PrefixIn(roots, 0, rank.Keys) && Counted(g, states, order, edges);
    hide Search, Finished, Ranked, Successors, Universe, Reachable, Justified, PrefixIn, Counted;
    for n := 0 to |roots|
      invariant edges <= MAX_REFERENCE_EDGES && reachable == |states| <= MAX_REACHABLE_WORKFLOWS
      invariant Finished(g, states, rank) && Counted(g, states, order, edges)
      invariant forall v | v in states :: Reachable(g, roots, v) && states[v] == Black
      invariant PrefixIn(roots, n, rank.Keys)
    {
      if roots[n] in states && states[roots[n]] == Black {
        FinishedIsBlack(g, states, rank, roots[n]);
        PrefixInGrows(roots, n, rank.Keys, rank.Keys);
        continue;
      }
      SearchStart(g, roots, n, states, rank);
      FinishedIsRanked(g, states, rank);
      ghost var known := rank.Keys;
      verdict, states, reachable, edges, rank, order :=
        SearchFrom(g, roots, n, states, reachable, edges, rank, order);
      if !verdict.Accepted? { return; }
      SearchDone(g, roots, roots[n], states, rank);
      PrefixInGrows(roots, n, known, rank.Keys);
    }
    FinishedIsAccepted(g, roots, states, rank, order, edges);
    verdict := Accepted;
  }
}

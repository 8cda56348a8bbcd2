/**
 How the sizes of a compiled plan relate to its reference graph and to its
 budget: a chain is as long as the longest walk, and the compiled nodes are never
 more than the executions the budget allows for.
 */
module Sizes {
  import opened Wrappers
  import opened Plan
  import opened Trees
  import Budget
  import References

  // ----- reference chains -----

  /** Below a step list no chain is longer than `ChainSteps`. */
  lemma {:induction false} ChainBounds(g: Graph, rank: map<string, nat>, v: string, steps: seq<Step>, id: string)
    requires Within(g, rank, v, steps) && id in RefIds(steps)
    ensures Resolves(g, rank, v, id) && Chain(g, rank, Target(g, v, id)) <= ChainSteps(g, rank, v, steps)
    decreases steps, 0
  {
    assert Resolves(g, rank, v, id);
    if id in RefIdsOf(steps[0]) {
      ChainBoundsStep(g, rank, v, steps[0], id);
    } else {
      ChainBounds(g, rank, v, steps[1..], id);
    }
  }

  lemma {:induction false} ChainBoundsStep(g: Graph, rank: map<string, nat>, v: string, step: Step, id: string)
    requires StepWithin(g, rank, v, step) && id in RefIdsOf(step)
    ensures Resolves(g, rank, v, id) && Chain(g, rank, Target(g, v, id)) <= ChainStep(g, rank, v, step)
    decreases step, 1
  {
    assert Resolves(g, rank, v, id);
    if step.RepeatStep? { ChainBounds(g, rank, v, step.children, id); }
  }

  /** The longest chain below a step list starts at one of its references. */
  lemma {:induction false} ChainReached(g: Graph, rank: map<string, nat>, v: string, steps: seq<Step>)
    returns (id: string)
    requires Within(g, rank, v, steps) && ChainSteps(g, rank, v, steps) > 0
    ensures id in RefIds(steps) && Resolves(g, rank, v, id)
    ensures Chain(g, rank, Target(g, v, id)) == ChainSteps(g, rank, v, steps)
    decreases steps, 0
  {
    if ChainStep(g, rank, v, steps[0]) >= ChainSteps(g, rank, v, steps[1..]) {
      id := ChainReachedStep(g, rank, v, steps[0]);
    } else {
      id := ChainReached(g, rank, v, steps[1..]);
    }
  }

  lemma {:induction false} ChainReachedStep(g: Graph, rank: map<string, nat>, v: string, step: Step)
    returns (id: string)
    requires StepWithin(g, rank, v, step) && ChainStep(g, rank, v, step) > 0
    ensures id in RefIdsOf(step) && Resolves(g, rank, v, id)
    ensures Chain(g, rank, Target(g, v, id)) == ChainStep(g, rank, v, step)
    decreases step, 1
  {
    if step.RepeatStep? {
      id := ChainReached(g, rank, v, step.children);
    } else {
      id := step.id;
      assert Resolves(g, rank, v, id);
    }
  }

  /** No walk of references from a version is longer than its chain... */
  lemma {:induction false} WalkWithinChain(g: Graph, rank: map<string, nat>, p: seq<string>)
    requires Closed(g, rank) && Walk(g, p) && p[0] in rank
    ensures |p| <= Chain(g, rank, p[0])
    decreases |p|
  {
    if |p| > 1 {
      var v, tail := p[0], p[1..];
      assert p[1] in Successors(g, p[0]);
      var id :| id in RefIds(StepsOf(g, v)) && EdgeKey(v, id) in g.resolutions && Target(g, v, id) == p[1];
      ChainBounds(g, rank, v, g.workflows[v].steps, id);
      assert forall i | 0 < i < |tail| :: tail[i] == p[i + 1] && tail[i - 1] == p[i];
      WalkWithinChain(g, rank, tail);
    }
  }

  /** ...and one is exactly as long. */
  lemma {:induction false} ChainIsWalked(g: Graph, rank: map<string, nat>, v: string) returns (p: seq<string>)
    requires Closed(g, rank) && v in rank
    ensures Walk(g, p) && p[0] == v && |p| == Chain(g, rank, v)
    decreases rank[v]
  {
    if ChainSteps(g, rank, v, g.workflows[v].steps) == 0 {
      p := [v];
    } else {
      var id := ChainReached(g, rank, v, g.workflows[v].steps);
      var rest := ChainIsWalked(g, rank, Target(g, v, id));
      p := [v] + rest;
      assert Target(g, v, id) in Successors(g, v);
      forall i | 0 < i < |p|
        ensures p[i] in Successors(g, p[i - 1])
      {
        if i > 1 { assert rest[i - 1] in Successors(g, rest[i - 2]); }
      }
    }
  }

  /** Some root's chain exceeds `n` exactly when a walk of `n + 1` versions starts at a root. */
  lemma ChainExceeds(g: Graph, rank: map<string, nat>, roots: seq<string>, n: nat)
    requires Closed(g, rank) && forall r | r in roots :: r in rank
    ensures (exists r :: r in roots && Chain(g, rank, r) > n) <==> References.LongChain(g, roots, n + 1)
  {
    if References.LongChain(g, roots, n + 1) {
      var p :| Walk(g, p) && p[0] in roots && |p| == n + 1;
      WalkWithinChain(g, rank, p);
    }
    if r :| r in roots && Chain(g, rank, r) > n {
      var p := ChainIsWalked(g, rank, r);
      var q := p[..n + 1];
      assert forall i | 0 <= i < |q| :: q[i] == p[i];
      assert Walk(g, q);
    }
  }

  // ----- compiled nodes -----

  lemma {:induction false} MembersExecutions(members: seq<Member>)
    ensures Budget.MembersPrice(members).executions == |members|
  {
    if members != [] { MembersExecutions(members[1..]); }
  }

  lemma {:induction false} MemberCountCons(branches: seq<Branch>)
    requires branches != []
    ensures MemberCount(branches) == |branches[0].members| + MemberCount(branches[1..])
  {
    if |branches| == 1 {
      assert branches[..0] == [] && branches[1..] == [];
    } else {
      var init := branches[..|branches| - 1];
      MemberCountCons(init);
      assert init[1..] == branches[1..][..|branches| - 2];
      assert branches[1..][|branches| - 2] == branches[|branches| - 1];
    }
  }

  lemma {:induction false} BranchesExecutions(branches: seq<Branch>)
    ensures Budget.BranchesPrice(branches).executions == MemberCount(branches)
  {
    if branches != [] {
      MembersExecutions(branches[0].members);
      MemberCountCons(branches);
      BranchesExecutions(branches[1..]);
    }
  }

  lemma TimesAtLeast(n: nat, times: int)
    requires times >= 1
    ensures n <= n * times
  {
  }

  /** A repeat body is compiled once but priced once per turn, so the budget covers the compiled nodes. */
  lemma {:induction false} CountWithinPrice(g: Graph, rank: map<string, nat>, v: string, steps: seq<Step>)
    requires Within(g, rank, v, steps) && Shaped(steps)
    requires AllShaped(g, rank)
    ensures CountSteps(g, rank, v, steps) <= Budget.StepsPrice(g, rank, v, steps).executions
    decreases rank[v], steps, 0
  {
    if steps != [] {
      CountWithinPriceStep(g, rank, v, steps[0]);
      CountWithinPrice(g, rank, v, steps[1..]);
    }
  }

  lemma {:induction false} CountWithinPriceStep(g: Graph, rank: map<string, nat>, v: string, step: Step)
    requires StepWithin(g, rank, v, step) && ShapedStep(step)
    requires AllShaped(g, rank)
    ensures CountStep(g, rank, v, step) <= Budget.StepPrice(g, rank, v, step).executions
    decreases rank[v], step, 1
  {
    match step {
      case GroupStep(_, branches, _) => BranchesExecutions(branches);
      case RepeatStep(_, times, children) =>
        CountWithinPrice(g, rank, v, children);
        TimesAtLeast(Budget.StepsPrice(g, rank, v, children).executions, times);
      case ReferenceStep(id, _, _, _) =>
        assert Resolves(g, rank, v, id);
        var t := Target(g, v, id);
        CountWithinPrice(g, rank, t, g.workflows[t].steps);
      case _ =>
    }
  }
}

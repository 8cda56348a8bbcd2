/**
 The price of a plan (domain/execution/budget.go): how many step executions and
 how much waiting its full expansion costs, and the memoised, saturating
 evaluator that decides whether both stay within their limits.
 */
module Budget {
  import opened Wrappers
  import opened Plan
  import opened Expansions

  newtype int64 = x: int | -0x8000_0000_0000_0000 <= x < 0x8000_0000_0000_0000

  const MAX_EXECUTIONS: int64 := 1_000_000
  const MAX_TOTAL_WAIT_MS: int64 := 86_400_000

  // ----- the unbounded price -----

  datatype Price = Price(executions: nat, waitMs: nat)
  {
    function Plus(other: Price): Price {
      Price(executions + other.executions, waitMs + other.waitMs)
    }

    function Times(n: nat): Price {
      Price(executions * n, waitMs * n)
    }

    predicate Over() {
      executions > MAX_EXECUTIONS as int || waitMs > MAX_TOTAL_WAIT_MS as int
    }
  }

  const FREE := Price(0, 0)

  function Natural(n: int): nat {
    if n < 0 then 0 else n
  }

  function MembersPrice(members: seq<Member>): Price {
    if members == [] then FREE
    else MemberPrice(members[0]).Plus(MembersPrice(members[1..]))
  }

  function MemberPrice(member: Member): Price {
    Price(1, Natural(member.maxWaitMs))
  }

  function BranchesPrice(branches: seq<Branch>): Price {
    if branches == [] then FREE else MembersPrice(branches[0].members).Plus(BranchesPrice(branches[1..]))
  }

  /** Price of a step list of version `v`, references expanded and repeats unrolled. */
  ghost function StepsPrice(g: Graph, rank: map<string, nat>, v: string, steps: seq<Step>): Price
    requires Within(g, rank, v, steps)
    decreases rank[v], steps, 0
  {
    if steps == [] then FREE
    else StepPrice(g, rank, v, steps[0]).Plus(StepsPrice(g, rank, v, steps[1..]))
  }

  ghost function StepPrice(g: Graph, rank: map<string, nat>, v: string, step: Step): Price
    requires StepWithin(g, rank, v, step)
    decreases rank[v], step, 1
  {
    match step
    case ActionStep(_, _, _, _) => Price(1, 0)
    case WaitStep(_, _, _, ms) => Price(1, Natural(ms))
    case ValidationStep(_, _, ms) => Price(1, Natural(ms))
    case GroupStep(_, branches, ms) => Price(1, Natural(ms)).Plus(BranchesPrice(branches))
    case RepeatStep(_, times, children) =>
      Price(1, 0).Plus(StepsPrice(g, rank, v, children).Times(Natural(times)))
    case ReferenceStep(id, _, _, _) =>
      assert Resolves(g, rank, v, id);
      Price(1, 0).Plus(WorkflowPrice(g, rank, Target(g, v, id)))
  }

  ghost function WorkflowPrice(g: Graph, rank: map<string, nat>, v: string): Price
    requires Closed(g, rank) && v in rank
    decreases rank[v], g.workflows[v].steps, 1
  {
    StepsPrice(g, rank, v, g.workflows[v].steps)
  }

  /** Price of running every root once. */
  ghost function TotalPrice(g: Graph, rank: map<string, nat>, roots: seq<string>): Price
    requires Closed(g, rank) && forall r | r in roots :: r in rank
  {
    if roots == [] then FREE
    else WorkflowPrice(g, rank, roots[0]).Plus(TotalPrice(g, rank, roots[1..]))
  }

  // ----- the price is the size of the expansion -----

  /** How many lines there are, and how long they may wait together. */
  ghost predicate Measures(p: Price, lines: seq<Line>) {
    p.executions == |lines| && p.waitMs == TotalWait(lines)
  }

  lemma MeasuresAppend(p: Price, a: seq<Line>, q: Price, b: seq<Line>)
    requires Measures(p, a) && Measures(q, b)
    ensures Measures(p.Plus(q), a + b)
  {
    TotalWaitAppend(a, b);
  }

  lemma {:induction false} MeasuresCopies(p: Price, lines: seq<Line>, n: nat)
    requires Measures(p, lines)
    ensures Measures(p.Times(n), Copies(lines, n))
  {
    if n > 0 {
      MeasuresCopies(p, lines, n - 1);
      MeasuresAppend(p, lines, p.Times(n - 1), Copies(lines, n - 1));
      assert p.Times(n) == p.Plus(p.Times(n - 1));
    }
  }

  lemma MeasuresOne(line: Line)
    ensures Measures(Price(1, DeclaredWait(line)), [line])
  {
  }

  lemma {:induction false} MembersMeasure(v: string, members: seq<Member>)
    ensures Measures(MembersPrice(members), MemberLines(v, members))
  {
    if members != [] {
      MembersMeasure(v, members[1..]);
      MeasuresOne(MemberLine(v, members[0]));
      MeasuresAppend(MemberPrice(members[0]), [MemberLine(v, members[0])],
                     MembersPrice(members[1..]), MemberLines(v, members[1..]));
    }
  }

  lemma {:induction false} BranchesMeasure(v: string, branches: seq<Branch>)
    ensures Measures(BranchesPrice(branches), BranchLines(v, branches))
  {
    if branches != [] {
      MembersMeasure(v, branches[0].members);
      BranchesMeasure(v, branches[1..]);
      MeasuresAppend(MembersPrice(branches[0].members), MemberLines(v, branches[0].members),
                     BranchesPrice(branches[1..]), BranchLines(v, branches[1..]));
    }
  }

  lemma {:induction false} StepsMeasure(g: Graph, rank: map<string, nat>, v: string, steps: seq<Step>)
    requires Within(g, rank, v, steps)
    ensures Measures(StepsPrice(g, rank, v, steps), StepsLines(g, rank, v, steps))
    decreases rank[v], steps, 0
  {
    hide Measures, StepPrice, StepLines;
    if steps == [] {
      NothingMeasures();
    } else {
      StepMeasures(g, rank, v, steps[0]);
      StepsMeasure(g, rank, v, steps[1..]);
      MeasuresAppend(StepPrice(g, rank, v, steps[0]), StepLines(g, rank, v, steps[0]),
                     StepsPrice(g, rank, v, steps[1..]), StepsLines(g, rank, v, steps[1..]));
    }
  }

  lemma NothingMeasures()
    ensures Measures(FREE, [])
  {
  }

  lemma {:induction false} StepMeasures(g: Graph, rank: map<string, nat>, v: string, step: Step)
    requires StepWithin(g, rank, v, step)
    ensures Measures(StepPrice(g, rank, v, step), StepLines(g, rank, v, step))
    decreases rank[v], step, 1
  {
    var line := StepLine(v, step);
    MeasuresOne(line);
    hide Measures, StepsPrice, StepsLines;
    match step {
      case GroupStep(_, branches, ms) =>
        BranchesMeasure(v, branches);
        MeasuresAppend(Price(1, Natural(ms)), [line], BranchesPrice(branches), BranchLines(v, branches));
      case RepeatStep(_, times, children) =>
        StepsMeasure(g, rank, v, children);
        MeasuresCopies(StepsPrice(g, rank, v, children), StepsLines(g, rank, v, children), Natural(times));
        MeasuresAppend(Price(1, 0), [line], StepsPrice(g, rank, v, children).Times(Natural(times)),
                       Copies(StepsLines(g, rank, v, children), Natural(times)));
      case ReferenceStep(id, _, _, _) =>
        assert Resolves(g, rank, v, id);
        WorkflowMeasures(g, rank, Target(g, v, id));
        MeasuresAppend(Price(1, 0), [line], WorkflowPrice(g, rank, Target(g, v, id)),
                       WorkflowLines(g, rank, Target(g, v, id)));
      case _ => assert [line] + [] == [line];
    }
  }

  /** The price of a version counts the lines of its expansion and adds up their declared waits. */
  lemma {:induction false} WorkflowMeasures(g: Graph, rank: map<string, nat>, v: string)
    requires Closed(g, rank) && v in rank
    ensures Measures(WorkflowPrice(g, rank, v), WorkflowLines(g, rank, v))
    decreases rank[v], g.workflows[v].steps, 1
  {
    StepsMeasure(g, rank, v, g.workflows[v].steps);
  }

  /** So does the price of a plan, and it is within the limits exactly when its expansion is. */
  lemma {:induction false} TotalMeasures(g: Graph, rank: map<string, nat>, roots: seq<string>)
    requires Closed(g, rank) && forall r | r in roots :: r in rank
    ensures Measures(TotalPrice(g, rank, roots), PlanLines(g, rank, roots))
    ensures !TotalPrice(g, rank, roots).Over() <==> Affordable(PlanLines(g, rank, roots))
  {
    if roots != [] {
      WorkflowMeasures(g, rank, roots[0]);
      TotalMeasures(g, rank, roots[1..]);
      MeasuresAppend(WorkflowPrice(g, rank, roots[0]), WorkflowLines(g, rank, roots[0]),
                     TotalPrice(g, rank, roots[1..]), PlanLines(g, rank, roots[1..]));
    }
    hide WorkflowPrice, WorkflowLines;
  }

  /** At most a million executions and a day of waiting. */
  predicate Affordable(lines: seq<Line>) {
    |lines| <= 1_000_000 && TotalWait(lines) <= 24 * 60 * 60 * 1000
  }

  // ----- saturating machine arithmetic -----

  datatype Cost = Cost(executions: int64, waitMs: int64)
  {
    predicate Over() {
      executions > MAX_EXECUTIONS || waitMs > MAX_TOTAL_WAIT_MS
    }

    predicate NonNegative() {
      0 <= executions && 0 <= waitMs
    }
  }

  function Min(a: int, b: int): int {
    if a < b then a else b
  }

  function CappedAdd(a: int64, b: int64, cap: int64): (c: int64)
    requires 0 <= a && 0 <= b && 0 <= cap
    ensures c as int == Min(a as int + b as int, cap as int)
  {
    if a >= cap || b >= cap - a then cap else a + b
  }

  lemma MulMonotone(a: nat, x: int, y: int)
    requires x <= y
    ensures a * x <= a * y
  {
  }

  lemma QuotientBound(a: int, b: int, cap: int)
    requires a > 0 && cap >= 0
    ensures b <= cap / a <==> a * b <= cap
  {
    var q := cap / a;
    assert a * q <= cap < a * q + a;
    if b <= q {
      MulMonotone(a, b, q);
    } else {
      MulMonotone(a, q + 1, b);
    }
  }

  function CappedMultiply(a: int64, b: int64, cap: int64): (c: int64)
    requires 0 <= cap
    ensures c as int == Min(Natural(a as int) * Natural(b as int), cap as int)
  {
    if a <= 0 || b <= 0 then 0
    else
      QuotientBound(a as int, b as int, cap as int);
      if a >= cap || b > cap / a then
        MulMonotone(a as int, 1, b as int);
        cap
      else a * b
  }

  function AddCost(a: Cost, b: Cost): Cost
    requires a.NonNegative() && b.NonNegative()
  {
    Cost(CappedAdd(a.executions, b.executions, MAX_EXECUTIONS + 1),
         CappedAdd(a.waitMs, b.waitMs, MAX_TOTAL_WAIT_MS + 1))
  }

  function MultiplyCost(cost: Cost, multiplier: int64): Cost {
    Cost(CappedMultiply(cost.executions, multiplier, MAX_EXECUTIONS + 1),
         CappedMultiply(cost.waitMs, multiplier, MAX_TOTAL_WAIT_MS + 1))
  }

  /**
   A computed cost stands for a true price: it never overstates it, it exceeds
   the limits exactly when the price does, and otherwise it is the price. In an
   exceeded cost one dimension may be understated, because evaluation stops early.
   */
  predicate StandsFor(c: Cost, p: Price) {
    && 0 <= c.executions as int <= p.executions && c.executions <= MAX_EXECUTIONS + 1
    && 0 <= c.waitMs as int <= p.waitMs && c.waitMs <= MAX_TOTAL_WAIT_MS + 1
    && c.Over() == p.Over()
    && (!p.Over() ==> c.executions as int == p.executions && c.waitMs as int == p.waitMs)
  }

  lemma AddStands(a: Cost, p: Price, b: Cost, q: Price)
    requires StandsFor(a, p) && StandsFor(b, q)
    ensures a.NonNegative() && b.NonNegative()
    ensures StandsFor(AddCost(a, b), p.Plus(q))
  {
  }

  lemma MultiplyStands(c: Cost, p: Price, times: int64)
    requires StandsFor(c, p)
    ensures StandsFor(MultiplyCost(c, times), p.Times(Natural(times as int)))
  {
    var n := Natural(times as int);
    if n == 0 {
    } else {
      MulMonotone(p.executions, 1, n);
      MulMonotone(p.waitMs, 1, n);
      MulMonotone(n, c.executions as int, p.executions);
      MulMonotone(n, c.waitMs as int, p.waitMs);
      MulMonotone(c.executions as int, 1, n);
      MulMonotone(c.waitMs as int, 1, n);
    }
  }

  lemma StandsDecides(c: Cost, p: Price)
    requires StandsFor(c, p)
    ensures c.Over() == p.Over()
  {
  }

  lemma TotalPriceSplit(g: Graph, rank: map<string, nat>, roots: seq<string>, i: nat)
    requires Closed(g, rank) && (forall r | r in roots :: r in rank) && i < |roots|
    ensures TotalPrice(g, rank, roots[i..])
         == WorkflowPrice(g, rank, roots[i]).Plus(TotalPrice(g, rank, roots[i + 1..]))
  {
    assert roots[i..][1..] == roots[i + 1..];
  }

  /** `cost` stands for the part of `total` that is not in `rest`. */
  ghost predicate Accumulated(cost: Cost, rest: Price, total: Price) {
    exists done: Price :: StandsFor(cost, done) && done.Plus(rest) == total
  }

  lemma AccumulateNothing(total: Price)
    ensures Accumulated(Cost(0, 0), total, total)
  {
    assert StandsFor(Cost(0, 0), FREE) && FREE.Plus(total) == total;
  }

  /** Adds the cost of the next item. */
  lemma AccumulateNext(cost: Cost, item: Cost, price: Price, rest: Price, total: Price)
    requires Accumulated(cost, price.Plus(rest), total) && StandsFor(item, price)
    ensures cost.NonNegative() && item.NonNegative()
    ensures Accumulated(AddCost(cost, item), rest, total)
  {
    var done: Price :| StandsFor(cost, done) && done.Plus(price.Plus(rest)) == total;
    AddStands(cost, done, item, price);
    assert done.Plus(price).Plus(rest) == total;
  }

  /** An exceeded cost already stands for the whole total: what is left can only add to the price. */
  lemma StopEarly(cost: Cost, rest: Price, total: Price)
    requires Accumulated(cost, rest, total) && cost.Over()
    ensures StandsFor(cost, total)
  {
  }

  lemma AccumulatedAll(cost: Cost, total: Price)
    requires Accumulated(cost, FREE, total)
    ensures StandsFor(cost, total)
  {
    var done: Price :| StandsFor(cost, done) && done.Plus(FREE) == total;
    assert done == total;
  }

  // ----- the evaluator -----

  datatype EvaluationError = MissingWorkflow(version: string) | MissingResolution(stepId: string)

  /** The cost of the first `i` steps, with the rest of the list still to be priced. */
  ghost predicate Costing(g: Graph, rank: map<string, nat>, v: string, steps: seq<Step>, i: nat, cost: Cost) {
    && i <= |steps| && Within(g, rank, v, steps) && Within(g, rank, v, steps[i..]) && Shaped(steps[i..])
    && Accumulated(cost, StepsPrice(g, rank, v, steps[i..]), StepsPrice(g, rank, v, steps))
  }

  lemma CostingStart(g: Graph, rank: map<string, nat>, v: string, steps: seq<Step>)
    requires Within(g, rank, v, steps) && Shaped(steps)
    ensures Costing(g, rank, v, steps, 0, Cost(0, 0))
  {
    assert steps[0..] == steps;
    AccumulateNothing(StepsPrice(g, rank, v, steps));
  }

  lemma CostingStep(g: Graph, rank: map<string, nat>, v: string, steps: seq<Step>, i: nat, cost: Cost)
    requires i < |steps| && Costing(g, rank, v, steps, i, cost)
    ensures StepWithin(g, rank, v, steps[i]) && ShapedStep(steps[i])
  {
  }

  lemma CostingNext(g: Graph, rank: map<string, nat>, v: string, steps: seq<Step>, i: nat, cost: Cost, item: Cost)
    requires i < |steps| && Costing(g, rank, v, steps, i, cost) && StepWithin(g, rank, v, steps[i])
    requires StandsFor(item, StepPrice(g, rank, v, steps[i]))
    ensures cost.NonNegative() && item.NonNegative()
    ensures Costing(g, rank, v, steps, i + 1, AddCost(cost, item))
    ensures AddCost(cost, item).Over() ==> StandsFor(AddCost(cost, item), StepsPrice(g, rank, v, steps))
  {
    assert steps[i..][1..] == steps[i + 1..];
    var rest, total := StepsPrice(g, rank, v, steps[i + 1..]), StepsPrice(g, rank, v, steps);
    AccumulateNext(cost, item, StepPrice(g, rank, v, steps[i]), rest, total);
    if AddCost(cost, item).Over() { StopEarly(AddCost(cost, item), rest, total); }
    hide StandsFor, Accumulated, AddCost;
  }

  lemma CostingEnd(g: Graph, rank: map<string, nat>, v: string, steps: seq<Step>, cost: Cost)
    requires Costing(g, rank, v, steps, |steps|, cost)
    ensures Within(g, rank, v, steps) && StandsFor(cost, StepsPrice(g, rank, v, steps))
  {
    assert steps[|steps|..] == [] && StepsPrice(g, rank, v, []) == FREE;
    AccumulatedAll(cost, StepsPrice(g, rank, v, steps));
  }

  function MemberCost(member: Member): (cost: Cost)
    requires WaitInRange(member.maxWaitMs)
    ensures StandsFor(cost, MemberPrice(member))
  {
    Cost(1, member.maxWaitMs as int64)
  }

  /** Cost of a branch's members: a step list without references or repeats. */
  method MembersCost(members: seq<Member>) returns (cost: Cost)
    requires MembersInRange(members)
    ensures StandsFor(cost, MembersPrice(members))
  {
    hide StandsFor, Accumulated;
    cost := Cost(0, 0);
    AccumulateNothing(MembersPrice(members));
    assert members[0..] == members;
    for i := 0 to |members|
      invariant Accumulated(cost, MembersPrice(members[i..]), MembersPrice(members))
    {
      var member := MemberCost(members[i]);
      assert members[i..][1..] == members[i + 1..];
      AccumulateNext(cost, member, MemberPrice(members[i]), MembersPrice(members[i + 1..]), MembersPrice(members));
      cost := AddCost(cost, member);
      if cost.Over() {
        StopEarly(cost, MembersPrice(members[i + 1..]), MembersPrice(members));
        return;
      }
    }
    AccumulatedAll(cost, MembersPrice(members));
  }

  /** Cost of a group step: its own wait and the members of all its branches. */
  method GroupCost(branches: seq<Branch>, waitMs: int) returns (cost: Cost)
    requires WaitInRange(waitMs) && BranchesInRange(branches)
    ensures StandsFor(cost, Price(1, waitMs).Plus(BranchesPrice(branches)))
  {
    cost := Cost(1, waitMs as int64);
    ghost var total := Price(1, waitMs).Plus(BranchesPrice(branches));
    AccumulateNothing(total);
    AccumulateNext(Cost(0, 0), cost, Price(1, waitMs), BranchesPrice(branches), total);
    assert branches[0..] == branches;
    hide StandsFor, Accumulated;
    for i := 0 to |branches|
      invariant Accumulated(cost, BranchesPrice(branches[i..]), total)
    {
      var branch := MembersCost(branches[i].members);
      assert branches[i..][1..] == branches[i + 1..];
      AccumulateNext(cost, branch, MembersPrice(branches[i].members), BranchesPrice(branches[i + 1..]), total);
      cost := AddCost(cost, branch);
    }
    AccumulatedAll(cost, total);
  }

  /** Evaluations still open lie above the given rank, so no version can be re-entered. */
  ghost predicate AllAtLeast(rank: map<string, nat>, versions: set<string>, least: nat) {
    forall u | u in versions :: u in rank && rank[u] >= least
  }

  function CountOf(counts: map<string, nat>, key: string): nat {
    if key in counts then counts[key] else 0
  }

  class Evaluator {
    const g: Graph
    ghost const rank: map<string, nat>
    var memo: map<string, Cost>
    var visits: map<string, nat>

    constructor (g: Graph, ghost rank: map<string, nat>)
      requires Closed(g, rank) && AllShaped(g, rank)
      ensures this.g == g && this.rank == rank
      ensures Valid() && memo == map[] && visits == map[]
    {
      this.g, this.rank := g, rank;
      memo, visits := map[], map[];
    }

    /** The memo holds the costs of finished versions; no version is ever evaluated twice. */
    ghost predicate Valid()
      reads this
    {
      && Closed(g, rank)
      && AllShaped(g, rank)
      && (forall v | v in memo :: v in rank && StandsFor(memo[v], WorkflowPrice(g, rank, v)))
      && (forall v | v in visits :: v in rank && visits[v] == 1)
      && memo.Keys <= visits.Keys
    }

    /** Versions whose evaluation has begun and not ended. */
    ghost function InProgress(): set<string>
      reads this
    {
      visits.Keys - memo.Keys
    }

    method WorkflowCost(v: string) returns (r: Result<Cost, EvaluationError>)
      requires Valid() && v in rank && AllAtLeast(rank, InProgress(), rank[v] + 1)
      modifies this`memo, this`visits
      ensures Valid() && InProgress() == old(InProgress())
      ensures r.Ok? && StandsFor(r.value, WorkflowPrice(g, rank, v))
      decreases rank[v], g.workflows[v].steps, 1
    {
      if v in memo { return Ok(memo[v]); }
      if v !in g.workflows { return Err(MissingWorkflow(v)); }
      assert v !in InProgress();
      visits := visits[v := CountOf(visits, v) + 1];
      ghost var open := old(InProgress());
      assert InProgress() == open + {v};
      r := StepsCost(v, g.workflows[v].steps);
      if r.Err? { return; }
      ghost var before := memo.Keys;
      assert visits.Keys - before == open + {v};
      memo := memo[v := r.value];
      assert memo.Keys == before + {v};
      assert visits.Keys - memo.Keys == open;
    }

    method StepsCost(v: string, steps: seq<Step>) returns (r: Result<Cost, EvaluationError>)
      requires Valid() && Within(g, rank, v, steps) && Shaped(steps)
      requires AllAtLeast(rank, InProgress(), rank[v])
      modifies this`memo, this`visits
      ensures Valid() && InProgress() == old(InProgress())
      ensures r.Ok? && StandsFor(r.value, StepsPrice(g, rank, v, steps))
      decreases rank[v], steps, 0
    {
      var cost := Cost(0, 0);
      CostingStart(g, rank, v, steps);
      hide StandsFor, Accumulated, Within, StepWithin, Shaped, ShapedStep, StepsPrice, StepPrice;
      hide Valid, InProgress, AllAtLeast, AddCost, Costing;
      for i := 0 to |steps|
        invariant Valid() && InProgress() == old(InProgress())
        invariant Costing(g, rank, v, steps, i, cost)
      {
        CostingStep(g, rank, v, steps, i, cost);
        var step := StepCost(v, steps[i]);
        if step.Err? { return step; }
        CostingNext(g, rank, v, steps, i, cost, step.value);
        cost := AddCost(cost, step.value);
        if cost.Over() { return Ok(cost); }
      }
      CostingEnd(g, rank, v, steps, cost);
      return Ok(cost);
    }

    method StepCost(v: string, step: Step) returns (r: Result<Cost, EvaluationError>)
      requires Valid() && StepWithin(g, rank, v, step) && ShapedStep(step)
      requires AllAtLeast(rank, InProgress(), rank[v])
      modifies this`memo, this`visits
      ensures Valid() && InProgress() == old(InProgress())
      ensures r.Ok? && StandsFor(r.value, StepPrice(g, rank, v, step))
      decreases rank[v], step, 1
    {
      match step {
        case ActionStep(_, _, _, _) => return Ok(Cost(1, 0));
        case WaitStep(_, _, _, ms) => return Ok(Cost(1, ms as int64));
        case ValidationStep(_, _, ms) => return Ok(Cost(1, ms as int64));
        case GroupStep(_, branches, ms) =>
          var cost := GroupCost(branches, ms);
          return Ok(cost);
        case RepeatStep(_, times, children) =>
          var child := StepsCost(v, children);
          if child.Err? { return child; }
          ghost var price := StepsPrice(g, rank, v, children);
          MultiplyStands(child.value, price, times as int64);
          AddStands(Cost(1, 0), Price(1, 0), MultiplyCost(child.value, times as int64), price.Times(times));
          return Ok(AddCost(Cost(1, 0), MultiplyCost(child.value, times as int64)));
        case ReferenceStep(id, _, _, _) =>
          assert Resolves(g, rank, v, id);
          if EdgeKey(v, id) !in g.resolutions { return Err(MissingResolution(id)); }
          var child := WorkflowCost(Target(g, v, id));
          if child.Err? { return child; }
          AddStands(Cost(1, 0), Price(1, 0), child.value, WorkflowPrice(g, rank, Target(g, v, id)));
          return Ok(AddCost(Cost(1, 0), child.value));
      }
    }
  }

  /**
   `validateExecutionBudget` accepts exactly the plans whose true expanded
   execution count and cumulative wait are both within their limits, and
   evaluates every version at most once.
   */
  method ValidateBudget(roots: seq<string>, g: Graph, ghost rank: map<string, nat>) returns (ok: bool)
    requires Closed(g, rank) && AllShaped(g, rank) && forall r | r in roots :: r in rank
    ensures ok <==> !TotalPrice(g, rank, roots).Over()
    ensures ok <==> Affordable(PlanLines(g, rank, roots))
  {
    var evaluator := new Evaluator(g, rank);
    var cost := Cost(0, 0);
    ghost var total := TotalPrice(g, rank, roots);
    AccumulateNothing(total);
    assert roots[0..] == roots && roots[|roots|..] == [];
    assert TotalPrice(g, rank, []) == FREE;
    hide StandsFor, Accumulated, Closed, Shaped, WorkflowPrice, TotalPrice, Affordable, PlanLines, Measures;
    for i := 0 to |roots|
      invariant fresh(evaluator) && evaluator.g == g && evaluator.rank == rank
      invariant evaluator.Valid() && evaluator.InProgress() == {}
      invariant Accumulated(cost, TotalPrice(g, rank, roots[i..]), total)
    {
      var workflow := evaluator.WorkflowCost(roots[i]);
      if workflow.Err? { return false; }
      TotalPriceSplit(g, rank, roots, i);
      AccumulateNext(cost, workflow.value,
        WorkflowPrice(g, rank, roots[i]), TotalPrice(g, rank, roots[i + 1..]), total);
      cost := AddCost(cost, workflow.value);
    }
    AccumulatedAll(cost, total);
    StandsDecides(cost, total);
    TotalMeasures(g, rank, roots);
    return !cost.Over();
  }
}

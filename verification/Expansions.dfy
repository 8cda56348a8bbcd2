/**
 A plan written out in full: every reference replaced by the steps of its version,
 every repeat by as many copies of its body, every group followed by its members.
 The limits of a plan (domain/execution/budget.go) are limits on this list.
 */
module Expansions {
  import opened Plan

  /** One execution: a step of a version, or a member of a group of that version. */
  datatype Line = StepLine(version: string, step: Step) | MemberLine(version: string, member: Member)

  function MemberLines(v: string, members: seq<Member>): seq<Line> {
    if members == [] then [] else [MemberLine(v, members[0])] + MemberLines(v, members[1..])
  }

  function BranchLines(v: string, branches: seq<Branch>): seq<Line> {
    if branches == [] then [] else MemberLines(v, branches[0].members) + BranchLines(v, branches[1..])
  }

  function Copies(lines: seq<Line>, n: nat): seq<Line> {
    if n == 0 then [] else lines + Copies(lines, n - 1)
  }

  ghost function StepsLines(g: Graph, rank: map<string, nat>, v: string, steps: seq<Step>): seq<Line>
    requires Within(g, rank, v, steps)
    decreases rank[v], steps, 0
  {
    if steps == [] then [] else StepLines(g, rank, v, steps[0]) + StepsLines(g, rank, v, steps[1..])
  }

  /** The step itself, then what it stands for. */
  ghost function StepLines(g: Graph, rank: map<string, nat>, v: string, step: Step): seq<Line>
    requires StepWithin(g, rank, v, step)
    decreases rank[v], step, 1
  {
    [StepLine(v, step)] +
    match step
    case GroupStep(_, branches, _) => BranchLines(v, branches)
    case RepeatStep(_, times, children) =>
      if times > 0 then Copies(StepsLines(g, rank, v, children), times) else []
    case ReferenceStep(id, _, _, _) =>
      assert Resolves(g, rank, v, id);
      WorkflowLines(g, rank, Target(g, v, id))
    case _ => []
  }

  ghost function WorkflowLines(g: Graph, rank: map<string, nat>, v: string): seq<Line>
    requires Closed(g, rank) && v in rank
    decreases rank[v], g.workflows[v].steps, 1
  {
    StepsLines(g, rank, v, g.workflows[v].steps)
  }

  /** All that running every root once executes. */
  ghost function PlanLines(g: Graph, rank: map<string, nat>, roots: seq<string>): seq<Line>
    requires Closed(g, rank) && forall r | r in roots :: r in rank
  {
    if roots == [] then [] else WorkflowLines(g, rank, roots[0]) + PlanLines(g, rank, roots[1..])
  }

  /** The longest a line may wait, as its step declares it. */
  function DeclaredWait(line: Line): nat {
    var ms := match line
      case StepLine(_, WaitStep(_, _, _, waitMs)) => waitMs
      case StepLine(_, ValidationStep(_, _, maxWaitMs)) => maxWaitMs
      case StepLine(_, GroupStep(_, _, maxWaitMs)) => maxWaitMs
      case StepLine(_, _) => 0
      case MemberLine(_, member) => member.maxWaitMs;
    if ms > 0 then ms else 0
  }

  function TotalWait(lines: seq<Line>): nat {
    if lines == [] then 0 else DeclaredWait(lines[0]) + TotalWait(lines[1..])
  }

  lemma {:induction false} TotalWaitAppend(a: seq<Line>, b: seq<Line>)
    ensures TotalWait(a + b) == TotalWait(a) + TotalWait(b)
  {
    if a == [] {
      assert a + b == b;
    } else {
      TotalWaitAppend(a[1..], b);
      assert (a + b)[1..] == a[1..] + b;
    }
  }

  // ----- the steps of an expansion -----

  /** A step of a version. */
  datatype StepName = StepName(version: string, id: string)

  /** The steps among the lines, in order. */
  function Names(lines: seq<Line>): seq<StepName> {
    if lines == [] then [] else NamesOf(lines[0]) + Names(lines[1..])
  }

  /** What one line adds. */
  function NamesOf(line: Line): seq<StepName> {
    if line.StepLine? then [StepName(line.version, line.step.id)] else []
  }

  lemma NamesCons(line: Line, rest: seq<Line>)
    ensures Names([line] + rest) == NamesOf(line) + Names(rest)
  {
    assert ([line] + rest)[1..] == rest;
  }

  lemma Associates<T>(x: seq<T>, y: seq<T>, z: seq<T>)
    ensures x + (y + z) == (x + y) + z
  {
  }

  lemma {:induction false} NamesAppend(a: seq<Line>, b: seq<Line>)
    ensures Names(a + b) == Names(a) + Names(b)
  {
    if a == [] {
      assert a + b == b;
    } else {
      var line, rest := a[0], a[1..];
      NamesAppend(rest, b);
      NamesCons(line, rest);
      NamesCons(line, rest + b);
      Associates(NamesOf(line), Names(rest), Names(b));
      Associates([line], rest, b);
      hide *;
      assert a == [line] + rest;
    }
  }

  lemma {:induction false} NamesAreFewer(lines: seq<Line>)
    ensures |Names(lines)| <= |lines|
  {
    if lines != [] { NamesAreFewer(lines[1..]); }
  }

  lemma {:induction false} MembersAreNoSteps(v: string, members: seq<Member>)
    ensures Names(MemberLines(v, members)) == []
  {
    if members != [] { MembersAreNoSteps(v, members[1..]); }
  }

  lemma {:induction false} BranchesAreNoSteps(v: string, branches: seq<Branch>)
    ensures Names(BranchLines(v, branches)) == []
  {
    if branches != [] {
      MembersAreNoSteps(v, branches[0].members);
      BranchesAreNoSteps(v, branches[1..]);
      NamesAppend(MemberLines(v, branches[0].members), BranchLines(v, branches[1..]));
    }
  }
}

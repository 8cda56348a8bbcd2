/**
 A plan that the reference search accepts although it holds a chain of 34
 versions (domain/execution/validation.go:663-682): the second half of the chain
 is finished from its own root before the search from the first version meets it.
 */
module LongPlan {
  import opened Wrappers
  import opened Text
  import opened Plan
  import opened References

  const LAST: nat := 33
  const MIDDLE: nat := 17
  const NEXT: Step := ReferenceStep("next", "", "", map[])

  /** The version of the chain with number `n`, and back. */
  function Version(n: nat): string {
    Itoa(n)
  }

  function Number(v: string): nat {
    match Atoi(v)
    case Some(n) => if n < 0 then 0 else n
    case None => 0
  }

  lemma NumberOfVersion(n: nat)
    ensures Number(Version(n)) == n
  {
    AtoiOfItoa(n);
  }

  function Versions(): set<string> {
    set n: nat | n <= LAST :: Version(n)
  }

  function Edges(): set<EdgeKey> {
    set n: nat | n < LAST :: EdgeKey(Version(n), "next")
  }

  /** Every version but the last refers to the next one. */
  function Chain(): Graph {
    Graph(map v | v in Versions() :: Workflow("", v, "", [], if Number(v) < LAST then [NEXT] else []),
      map k | k in Edges() :: Resolution(k.parent, k.stepId, "", Version(Number(k.parent) + 1)))
  }

  function ChainRoots(): seq<string> {
    [Version(MIDDLE), Version(0)]
  }

  lemma OneReference()
    ensures RefIds([NEXT]) == {"next"} && |RefBag([NEXT])| == 1 && RefIds([]) == {} && |RefBag([])| == 0
  {
    assert [NEXT][1..] == [];
  }

  lemma EdgeOf(n: nat)
    requires n <= LAST
    ensures EdgeKey(Version(n), "next") in Chain().resolutions <==> n < LAST
    ensures n < LAST ==> Chain().resolutions[EdgeKey(Version(n), "next")].version == Version(n + 1)
  {
    NumberOfVersion(n);
    if EdgeKey(Version(n), "next") in Edges() {
      var m: nat :| m < LAST && EdgeKey(Version(m), "next") == EdgeKey(Version(n), "next");
      NumberOfVersion(m);
    }
  }

  lemma StepsOfVersion(n: nat)
    requires n <= LAST
    ensures StepsOf(Chain(), Version(n)) == if n < LAST then [NEXT] else []
  {
    NumberOfVersion(n);
    assert Version(n) in Versions();
  }

  /** A version is followed by the next one only. */
  lemma Follows(n: nat, w: string)
    requires n <= LAST
    ensures w in Successors(Chain(), Version(n)) <==> n < LAST && w == Version(n + 1)
  {
    StepsOfVersion(n);
    OneReference();
    EdgeOf(n);
    hide Chain, Version;
  }

  /** A walk counts upwards, one by one. */
  lemma {:induction false} WalkCounts(n: nat, p: seq<string>, k: nat)
    requires n <= LAST && Walk(Chain(), p) && p[0] == Version(n) && k < |p|
    ensures n + k <= LAST && p[k] == Version(n + k)
  {
    if k > 0 {
      WalkCounts(n, p, k - 1);
      Follows(n + k - 1, p[k]);
    }
    hide Chain, Successors, Version;
  }

  lemma ChainIsLong()
    ensures LongChain(Chain(), ChainRoots(), MAX_REFERENCE_DEPTH + 2)
  {
    var p := seq(LAST + 1, i requires 0 <= i => Version(i));
    forall i | 0 < i < |p|
      ensures p[i] in Successors(Chain(), p[i - 1])
    {
      Follows(i - 1, p[i]);
    }
    assert p[0] == Version(0) && ChainRoots()[1] == Version(0);
    hide Chain, Successors, Version;
    assert Walk(Chain(), p);
  }

  /** From the middle the chain is short, and from the start it soon meets what the middle reaches. */
  lemma NoFreshChain()
    ensures !FreshChain(Chain(), ChainRoots(), MAX_REFERENCE_DEPTH + 1)
  {
    if FreshChain(Chain(), ChainRoots(), MAX_REFERENCE_DEPTH + 1) {
      var n, p :| 0 <= n < |ChainRoots()| && FreshWalk(Chain(), ChainRoots(), n, p) && |p| == MAX_REFERENCE_DEPTH + 1;
      if n == 0 {
        WalkCounts(MIDDLE, p, MAX_REFERENCE_DEPTH);
      } else {
        WalkCounts(0, p, MIDDLE);
        MiddleIsReached();
        hide Chain, Reachable, Version;
      }
    }
  }

  lemma MiddleIsReached()
    ensures Reachable(Chain(), ChainRoots()[..1], Version(MIDDLE))
  {
    assert ChainRoots()[..1] == [Version(MIDDLE)];
    assert Walk(Chain(), [Version(MIDDLE)]);
  }

  /** Counting down ranks the chain. */
  function Down(v: string): nat {
    if Number(v) <= LAST then LAST - Number(v) else 0
  }

  lemma DownFalls(v: string, w: string)
    requires v in Versions() && w in Successors(Chain(), v)
    ensures w in Versions() && Down(w) < Down(v)
  {
    var n: nat :| n <= LAST && v == Version(n);
    Follows(n, w);
    NumberOfVersion(n);
    NumberOfVersion(n + 1);
    hide Chain, Successors;
  }

  lemma ChainIsAcyclic()
    ensures Acyclic(Chain(), ChainRoots())
  {
    var rank: map<string, nat> := map v | v in Versions() :: Down(v);
    assert Version(MIDDLE) in Versions() && Version(0) in Versions();
    hide Chain, Successors, Down, Versions, Version;
    forall v, w | v in rank && w in Successors(Chain(), v)
      ensures w in rank && rank[w] < rank[v]
    {
      DownFalls(v, w);
    }
    assert Ranked(Chain(), rank);
  }

  lemma ReachedIsVersion(v: string)
    requires Reachable(Chain(), ChainRoots(), v)
    ensures v in Versions()
  {
    var p :| Walk(Chain(), p) && p[0] in ChainRoots() && p[|p| - 1] == v;
    var n: nat := if p[0] == Version(0) then 0 else MIDDLE;
    WalkCounts(n, p, |p| - 1);
    hide Chain, Version;
  }

  lemma VersionIsReached(n: nat)
    requires n <= LAST
    ensures Reachable(Chain(), ChainRoots(), Version(n))
  {
    var p := seq(n + 1, i requires 0 <= i => Version(i));
    forall i | 0 < i < |p|
      ensures p[i] in Successors(Chain(), p[i - 1])
    {
      Follows(i - 1, p[i]);
    }
    assert p[0] == Version(0) && ChainRoots()[1] == Version(0);
    hide Chain, Successors, Version;
    assert Walk(Chain(), p);
  }

  /** The first `n` versions, in order. */
  function Listing(n: nat): seq<string> {
    seq(n, i requires 0 <= i => Version(i))
  }

  lemma {:induction false} ListingEdges(n: nat)
    requires n <= LAST + 1
    ensures EdgeTotal(Chain(), Listing(n)) <= n
  {
    if n > 0 {
      ListingEdges(n - 1);
      assert Listing(n)[..n - 1] == Listing(n - 1);
      StepsOfVersion(n - 1);
      OneReference();
    }
    hide Chain, Version;
  }

  lemma ChainIsWithinLimits()
    ensures WithinLimits(Chain(), ChainRoots())
  {
    var versions := Listing(LAST + 1);
    ListingEdges(LAST + 1);
    forall i, j | 0 <= i < j < |versions|
      ensures versions[i] != versions[j]
    {
      NumberOfVersion(i);
      NumberOfVersion(j);
    }
    forall v | v in Elements(versions)
      ensures Reachable(Chain(), ChainRoots(), v)
    {
      var i :| 0 <= i < |versions| && versions[i] == v;
      VersionIsReached(i);
    }
    forall v | Reachable(Chain(), ChainRoots(), v)
      ensures v in Elements(versions)
    {
      ReachedIsVersion(v);
      var n: nat :| n <= LAST && v == Version(n);
      assert versions[n] == v;
    }
    hide Chain, Version, Reachable, EdgeTotal;
    assert Lists(Chain(), ChainRoots(), versions);
  }

  /**
   Every verdict the search can justify accepts the chain, which is two versions
   longer than the compiler allows.
   */
  lemma LongChainIsAccepted(verdict: Verdict)
    requires Justified(Chain(), ChainRoots(), verdict)
    ensures verdict.Accepted? && LongChain(Chain(), ChainRoots(), MAX_REFERENCE_DEPTH + 2)
  {
    ChainIsLong();
    NoFreshChain();
    ChainIsAcyclic();
    ChainIsWithinLimits();
    LimitsExclude(Chain(), ChainRoots());
    if verdict.Cycle? {
      var p :| WalkBetween(Chain(), p, verdict.version, verdict.version) && |p| >= 2;
      AcyclicHasNoCycle(Chain(), ChainRoots(), verdict.version, p);
    }
  }
}

/**
 The parent chains of call sites (domain/execution/instance_snapshot.go): a
 colouring visit that finds missing parents and cycles.
 */
module Ancestry {
  import opened Wrappers
  import opened Snapshots
  import opened Sealing
  import Codec

  datatype Mark = Grey | Black

  type Marks = map<string, Mark>

  /** The chain of parents from `p` ends at a root within `n` call sites. */
  ghost predicate Grounded(sites: map<string, Invocation>, p: string, n: nat)
    decreases n
  {
    n > 0 && p in sites && (sites[p].parent.None? || Grounded(sites, sites[p].parent.value, n - 1))
  }

  ghost predicate Rooted(sites: map<string, Invocation>, p: string) {
    exists n: nat :: Grounded(sites, p, n)
  }

  /** `k` steps up from `q` lies `p`. */
  predicate Climbs(sites: map<string, Invocation>, q: string, p: string, k: nat)
    decreases k
  {
    if k == 0 then q == p
    else q in sites && sites[q].parent.Some? && Climbs(sites, sites[q].parent.value, p, k - 1)
  }

  lemma {:induction false} ClimbOneMore(sites: map<string, Invocation>, q: string, p: string, k: nat)
    requires Climbs(sites, q, p, k) && p in sites && sites[p].parent.Some?
    ensures Climbs(sites, q, sites[p].parent.value, k + 1)
    decreases k
  {
    if k > 0 { ClimbOneMore(sites, sites[q].parent.value, p, k - 1); }
  }

  lemma {:induction false} ClimbGrounded(sites: map<string, Invocation>, q: string, p: string, k: nat, n: nat)
    requires Climbs(sites, q, p, k) && Grounded(sites, q, n)
    ensures n > k && Grounded(sites, p, n - k)
    decreases k
  {
    if k > 0 { ClimbGrounded(sites, sites[q].parent.value, p, k - 1, n - 1); }
  }

  lemma {:induction false} CycleNeverGrounded(sites: map<string, Invocation>, p: string, k: nat, n: nat)
    requires Climbs(sites, p, p, k) && k > 0
    ensures !Grounded(sites, p, n)
    decreases n
  {
    if Grounded(sites, p, n) {
      ClimbGrounded(sites, p, p, k, n);
      CycleNeverGrounded(sites, p, k, n - k);
    }
  }

  lemma ParentRooted(sites: map<string, Invocation>, p: string)
    requires p in sites && sites[p].parent.Some?
    ensures Rooted(sites, p) <==> Rooted(sites, sites[p].parent.value)
  {
    var q := sites[p].parent.value;
    if n: nat :| Grounded(sites, q, n) { assert Grounded(sites, p, n + 1); }
    if n: nat :| Grounded(sites, p, n) { assert Grounded(sites, q, n - 1); }
  }

  function Greys(marks: Marks): set<string> {
    set p | p in marks && marks[p].Grey?
  }

  /** Finished call sites are rooted. */
  ghost predicate Finished(sites: map<string, Invocation>, marks: Marks) {
    marks.Keys <= sites.Keys && forall p | p in marks && marks[p].Black? :: Rooted(sites, p)
  }

  ghost predicate Below(sites: map<string, Invocation>, q: string, p: string) {
    exists k: nat :: k > 0 && Climbs(sites, q, p, k)
  }

  /** The call sites being visited all lie below `p`. */
  ghost predicate AllBelow(sites: map<string, Invocation>, open: set<string>, p: string) {
    forall q | q in open :: Below(sites, q, p)
  }

  lemma ParentBelow(sites: map<string, Invocation>, open: set<string>, p: string)
    requires p in sites && sites[p].parent.Some? && AllBelow(sites, open, p)
    ensures AllBelow(sites, open + {p}, sites[p].parent.value)
  {
    var parent := sites[p].parent.value;
    assert Climbs(sites, p, parent, 1) by { assert Climbs(sites, parent, parent, 0); }
    forall q | q in open + {p}
      ensures Below(sites, q, parent)
    {
      if q in open {
        var k: nat :| k > 0 && Climbs(sites, q, p, k);
        ClimbOneMore(sites, q, p, k);
      }
    }
  }

  /** A call site that is still being visited has been reached from itself. */
  lemma OpenIsCyclic(sites: map<string, Invocation>, open: set<string>, p: string)
    requires p in open && AllBelow(sites, open, p)
    ensures !Rooted(sites, p)
  {
    var k: nat :| k > 0 && Climbs(sites, p, p, k);
    forall n: nat
      ensures !Grounded(sites, p, n)
    {
      CycleNeverGrounded(sites, p, k, n);
    }
  }

  lemma OpenNext(sites: map<string, Invocation>, marks: Marks, p: string)
    requires p in sites && p !in marks && Finished(sites, marks)
    ensures Finished(sites, marks[p := Grey]) && Greys(marks[p := Grey]) == Greys(marks) + {p}
  {
    hide Rooted;
  }

  lemma OneLess(all: set<string>, marked: set<string>, p: string)
    requires p in all && p !in marked
    ensures |all - (marked + {p})| < |all - marked|
  {
    assert all - marked == (all - (marked + {p})) + {p};
  }

  lemma CloseNext(sites: map<string, Invocation>, marks: Marks, p: string)
    requires p in sites && Rooted(sites, p) && Finished(sites, marks)
    ensures Finished(sites, marks[p := Black]) && Greys(marks[p := Black]) == Greys(marks) - {p}
  {
    hide Rooted;
  }

  lemma RootIsRooted(sites: map<string, Invocation>, p: string)
    requires p in sites && sites[p].parent.None?
    ensures Rooted(sites, p)
  {
    assert Grounded(sites, p, 1);
  }

  lemma MissingIsNotRooted(sites: map<string, Invocation>, p: string)
    requires p !in sites
    ensures !Rooted(sites, p)
  {
  }

  ghost predicate Ready(sites: map<string, Invocation>, p: string, before: Marks) {
    p in sites && Finished(sites, before) && AllBelow(sites, Greys(before), p)
  }

  /** What a visit tells: whether the chain of parents ends at a root, and that its own marks are settled. */
  ghost predicate Visited(sites: map<string, Invocation>, p: string, before: Marks, ok: bool, marks: Marks) {
    && (ok <==> Rooted(sites, p))
    && (ok ==> Finished(sites, marks) && Greys(marks) == Greys(before))
  }

  lemma VisitUp(sites: map<string, Invocation>, p: string, before: Marks)
    requires Ready(sites, p, before) && p !in before && sites[p].parent.Some? && sites[p].parent.value in sites
    ensures Ready(sites, sites[p].parent.value, before[p := Grey])
  {
    OpenNext(sites, before, p);
    ParentBelow(sites, Greys(before), p);
    hide Finished, AllBelow, Greys;
  }

  lemma VisitDown(sites: map<string, Invocation>, p: string, before: Marks, ok: bool, marks: Marks)
    requires Ready(sites, p, before) && p !in before && sites[p].parent.Some?
    requires Visited(sites, sites[p].parent.value, before[p := Grey], ok, marks)
    ensures Visited(sites, p, before, ok, marks[p := Black])
  {
    ParentRooted(sites, p);
    OpenNext(sites, before, p);
    assert p !in Greys(before);
    if ok { CloseNext(sites, marks, p); }
    hide Finished, Rooted, Greys;
    assert Greys(before) + {p} - {p} == Greys(before);
  }

  lemma VisitKnown(sites: map<string, Invocation>, p: string, before: Marks)
    requires Ready(sites, p, before) && p in before
    ensures Visited(sites, p, before, before[p].Black?, before)
  {
    if before[p].Grey? { OpenIsCyclic(sites, Greys(before), p); }
    hide Rooted, AllBelow;
  }

  lemma VisitRoot(sites: map<string, Invocation>, p: string, before: Marks)
    requires Ready(sites, p, before) && p !in before && sites[p].parent.None?
    ensures Visited(sites, p, before, true, before[p := Grey][p := Black])
  {
    RootIsRooted(sites, p);
    CloseNext(sites, before, p);
    assert before[p := Grey][p := Black] == before[p := Black];
    assert p !in Greys(before);
    hide Rooted, Finished, Greys;
  }

  lemma VisitMissing(sites: map<string, Invocation>, p: string, before: Marks, marks: Marks)
    requires p in sites && sites[p].parent.Some? && sites[p].parent.value !in sites
    ensures Visited(sites, p, before, false, marks)
  {
    ParentRooted(sites, p);
    MissingIsNotRooted(sites, sites[p].parent.value);
  }

  /** One visit: it succeeds exactly when the chain of parents ends at a root. */
  method Visit(sites: map<string, Invocation>, p: string, before: Marks) returns (ok: bool, marks: Marks)
    requires p in sites && Ready(sites, p, before)
    ensures Visited(sites, p, before, ok, marks)
    decreases |sites.Keys - before.Keys|
  {
    hide Ready, Visited, Rooted;
    marks := before;
    if p in marks {
      VisitKnown(sites, p, before);
      return marks[p].Black?, marks;
    }
    OneLess(sites.Keys, before.Keys, p);
    assert before[p := Grey].Keys == before.Keys + {p};
    marks := marks[p := Grey];
    ok := true;
    var parent := sites[p].parent;
    if parent.None? {
      VisitRoot(sites, p, before);
    } else {
      if parent.value !in sites {
        VisitMissing(sites, p, before, marks);
        return false, marks;
      }
      VisitUp(sites, p, before);
      ok, marks := Visit(sites, parent.value, marks);
      VisitDown(sites, p, before, ok, marks);
      if !ok {
        VisitFailed(sites, p, before, marks);
        return;
      }
    }
    marks := marks[p := Black];
  }

  lemma VisitFailed(sites: map<string, Invocation>, p: string, before: Marks, marks: Marks)
    requires Visited(sites, p, before, false, marks[p := Black])
    ensures Visited(sites, p, before, false, marks)
  {
  }

  /** Canonical paths grow with every call, so they cannot run in circles. */
  lemma {:induction false} CanonicalIsRooted(sites: map<string, Invocation>, p: string)
    requires p in sites && forall q | q in sites :: sites[q].path == q
    requires forall q | q in sites && sites[q].parent.Some? :: sites[q].parent.value in sites && CanonicalPath(sites[q])
    ensures Rooted(sites, p)
    decreases |p|
  {
    if sites[p].parent.None? {
      assert Grounded(sites, p, 1);
    } else {
      var q := sites[p].parent.value;
      assert CanonicalPath(sites[p]);
      assert Codec.ChildString(q, sites[p].stepId) == p;
      CanonicalIsRooted(sites, q);
      ParentRooted(sites, p);
    }
  }

  /** Visits every call site; it fails exactly when some chain of parents breaks off or runs in a circle. */
  method VisitAll(sites: map<string, Invocation>) returns (ok: bool)
    ensures ok <==> forall p | p in sites :: Rooted(sites, p)
  {
    var marks: Marks, left := map[], sites.Keys;
    while left != {}
      invariant left <= sites.Keys && Finished(sites, marks) && Greys(marks) == {}
      invariant forall p | p in sites && p !in left :: Rooted(sites, p)
      decreases |left|
    {
      var p :| p in left;
      hide Rooted;
      assert Ready(sites, p, marks);
      ok, marks := Visit(sites, p, marks);
      if !ok { return; }
      left := left - {p};
    }
    ok := true;
  }
}

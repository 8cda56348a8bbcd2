/**
 The topology of the evidence a step commits (domain/evidence/commits.go): every
 grouped final validation answers one expected member of one terminal group.
 */
module Evidence {

  const MAX_VIOLATIONS: nat := 32

  datatype Reason = PassedGroup | TimedOut | CanceledGroup | SystemError

  datatype Disposition = Won | SatisfiedNotWinner | NotSatisfied | NotObserved

  datatype Phase = SucceededStep | FailedStep | CanceledStep | AbortedStep

  /** The committed occurrence of a step. */
  datatype Event = Event(stepExecutionId: string, entryId: string, occurrence: nat, phase: Phase)

  datatype Validation = Validation(id: string, groupId: string, branchId: string, target: string,
    disposition: Disposition, passed: bool)

  datatype Member = Member(branchId: string, target: string)

  datatype Group = Group(id: string, stepExecutionId: string, entryId: string, occurrence: nat, groupId: string,
    reason: Reason, winningBranch: string, expected: seq<Member>)

  datatype Key = Key(groupId: string, branchId: string, target: string)

  predicate Grouped(v: Validation) {
    v.groupId != ""
  }

  function KeyOf(v: Validation): Key {
    Key(v.groupId, v.branchId, v.target)
  }

  function ExpectedKey(g: Group, m: Member): Key {
    Key(g.groupId, m.branchId, m.target)
  }

  predicate ReasonMatches(reason: Reason, phase: Phase) {
    match reason
    case PassedGroup => phase.SucceededStep?
    case TimedOut => phase.FailedStep?
    case SystemError => phase.FailedStep?
    case CanceledGroup => phase.CanceledStep? || phase.AbortedStep?
  }

  /** `ValidationGroupTerminalObservation.Validate`: identities, distinct members, and a winner exactly when passed. */
  predicate GroupValid(g: Group) {
    && g.id != "" && g.stepExecutionId != "" && g.entryId != "" && g.groupId != "" && g.occurrence > 0
    && (g.reason.PassedGroup? <==> g.winningBranch != "")
    && g.expected != []
    && (forall m | m in g.expected :: m.branchId != "" && m.target != "")
    && (forall i, j | 0 <= i < j < |g.expected| :: g.expected[i] != g.expected[j])
    && (g.reason.PassedGroup? ==> exists m :: m in g.expected && m.branchId == g.winningBranch)
  }

  predicate GroupBelongs(e: Event, g: Group) {
    && GroupValid(g)
    && g.stepExecutionId == e.stepExecutionId && g.entryId == e.entryId && g.occurrence == e.occurrence
    && ReasonMatches(g.reason, e.phase)
  }

  /** What a member's validation must say, given how its group ended. */
  predicate MemberAgrees(g: Group, m: Member, v: Validation) {
    && (v.disposition.Won? ==> g.reason.PassedGroup?)
    && (v.disposition.Won? || v.disposition.SatisfiedNotWinner? ==> v.passed)
    && (g.reason.PassedGroup? ==> (v.disposition.Won? <==> m.branchId == g.winningBranch))
  }

  /** The grouped validations by membership; a repeated membership keeps the first. */
  function Members(vs: seq<Validation>): map<Key, Validation> {
    if vs == [] then map[] else
    var earlier, last := Members(vs[..|vs| - 1]), vs[|vs| - 1];
    if !Grouped(last) || KeyOf(last) in earlier then earlier else earlier[KeyOf(last) := last]
  }

  predicate DistinctIds(vs: seq<Validation>) {
    forall i, j | 0 <= i < j < |vs| :: vs[i].id != vs[j].id
  }

  predicate DistinctMemberships(vs: seq<Validation>) {
    forall i, j | 0 <= i < j < |vs| && Grouped(vs[i]) && Grouped(vs[j]) :: KeyOf(vs[i]) != KeyOf(vs[j])
  }

  predicate DistinctGroups(gs: seq<Group>) {
    forall i, j | 0 <= i < j < |gs| :: gs[i].id != gs[j].id && gs[i].groupId != gs[j].groupId
  }

  predicate MemberAnswered(members: map<Key, Validation>, g: Group, m: Member) {
    ExpectedKey(g, m) in members && MemberAgrees(g, m, members[ExpectedKey(g, m)])
  }

  predicate GroupAnswered(e: Event, members: map<Key, Validation>, g: Group) {
    GroupBelongs(e, g) && forall m | m in g.expected :: MemberAnswered(members, g, m)
  }

  predicate Expected(gs: seq<Group>, key: Key) {
    exists i, m :: 0 <= i < |gs| && m in gs[i].expected && ExpectedKey(gs[i], m) == key
  }

  /** What an accepted commit's groups and validations are to each other. */
  predicate Topology(e: Event, vs: seq<Validation>, gs: seq<Group>) {
    && DistinctIds(vs) && DistinctMemberships(vs) && DistinctGroups(gs)
    && (forall g | g in gs :: GroupAnswered(e, Members(vs), g))
    && forall v | v in vs && Grouped(v) :: Expected(gs, KeyOf(v))
  }

  // ----- what acceptance means -----

  lemma {:induction false} MembersHold(vs: seq<Validation>, key: Key)
    ensures key in Members(vs) <==> exists v :: v in vs && Grouped(v) && KeyOf(v) == key
    ensures key in Members(vs) ==> Members(vs)[key] in vs && Grouped(Members(vs)[key]) && KeyOf(Members(vs)[key]) == key
  {
    if vs != [] {
      MembersHold(vs[..|vs| - 1], key);
      assert vs == vs[..|vs| - 1] + [vs[|vs| - 1]];
    }
  }

  /** Validation `i` answers member `m` of group `j`. */
  predicate Answers(vs: seq<Validation>, gs: seq<Group>, i: nat, j: nat, m: Member) {
    i < |vs| && j < |gs| && Grouped(vs[i]) && m in gs[j].expected && KeyOf(vs[i]) == ExpectedKey(gs[j], m)
  }

  /** Every grouped validation answers some expected member, of one group only... */
  lemma EveryValidationAnswers(e: Event, vs: seq<Validation>, gs: seq<Group>, i: nat) returns (j: nat, m: Member)
    requires Topology(e, vs, gs) && i < |vs| && Grouped(vs[i])
    ensures Answers(vs, gs, i, j, m)
    ensures forall j', m' | Answers(vs, gs, i, j', m') :: j' == j && m' == m
  {
    var x, y :| 0 <= x < |gs| && y in gs[x].expected && ExpectedKey(gs[x], y) == KeyOf(vs[i]);
    j, m := x, y;
  }

  /** ...and every expected member is answered by exactly one validation. */
  lemma EveryMemberIsAnswered(e: Event, vs: seq<Validation>, gs: seq<Group>, j: nat, m: Member) returns (i: nat)
    requires Topology(e, vs, gs) && j < |gs| && m in gs[j].expected
    ensures Answers(vs, gs, i, j, m)
    ensures forall i' | Answers(vs, gs, i', j, m) :: i' == i
  {
    var key := ExpectedKey(gs[j], m);
    assert GroupAnswered(e, Members(vs), gs[j]);
    assert MemberAnswered(Members(vs), gs[j], m);
    MembersHold(vs, key);
    var x :| 0 <= x < |vs| && vs[x] == Members(vs)[key];
    i := x;
  }

  /** A validation won exactly when its group passed on its branch; and then it passed itself. */
  lemma WinnersWon(e: Event, vs: seq<Validation>, gs: seq<Group>, i: nat, j: nat, m: Member)
    requires Topology(e, vs, gs) && Answers(vs, gs, i, j, m)
    ensures vs[i].disposition.Won? <==> gs[j].reason.PassedGroup? && gs[j].winningBranch == m.branchId
    ensures vs[i].disposition.Won? ==> vs[i].passed
  {
    var key := ExpectedKey(gs[j], m);
    assert GroupAnswered(e, Members(vs), gs[j]);
    assert MemberAnswered(Members(vs), gs[j], m);
    MembersHold(vs, key);
    var x :| 0 <= x < |vs| && vs[x] == Members(vs)[key];
  }

  /** A passed group has a winner, and the step it belongs to succeeded. */
  lemma PassedGroupsHaveWinners(e: Event, vs: seq<Validation>, gs: seq<Group>, j: nat) returns (i: nat, m: Member)
    requires Topology(e, vs, gs) && j < |gs| && gs[j].reason.PassedGroup?
    ensures Answers(vs, gs, i, j, m) && vs[i].disposition.Won? && vs[i].passed && e.phase.SucceededStep?
  {
    assert GroupAnswered(e, Members(vs), gs[j]);
    m :| m in gs[j].expected && m.branchId == gs[j].winningBranch;
    i := EveryMemberIsAnswered(e, vs, gs, j, m);
    WinnersWon(e, vs, gs, i, j, m);
  }

  // ----- the topology, pair by pair -----

  /** The group ended this step occurrence, in the one way its phase stands for. */
  predicate EndsStep(e: Event, g: Group) {
    && (g.stepExecutionId, g.entryId, g.occurrence) == (e.stepExecutionId, e.entryId, e.occurrence)
    && (e.phase.SucceededStep? <==> g.reason.PassedGroup?)
    && (e.phase.FailedStep? <==> g.reason.TimedOut? || g.reason.SystemError?)
    && (e.phase.CanceledStep? || e.phase.AbortedStep? <==> g.reason.CanceledGroup?)
  }

  /** The verdict of a validation on member `m` of `g`: it won exactly on the branch the group passed on, and what is satisfied passed. */
  predicate VerdictFits(g: Group, m: Member, v: Validation) {
    && (v.disposition.Won? <==> g.reason.PassedGroup? && m.branchId == g.winningBranch)
    && (!v.disposition.NotSatisfied? && !v.disposition.NotObserved? ==> v.passed)
  }

  /** Some member is answered by the validation. */
  ghost predicate AnswersSome(vs: seq<Validation>, gs: seq<Group>, i: nat) {
    exists j: nat, m :: Answers(vs, gs, i, j, m)
  }

  ghost predicate AnsweredBySome(vs: seq<Validation>, gs: seq<Group>, j: nat, m: Member) {
    exists i: nat :: Answers(vs, gs, i, j, m)
  }

  /**
   Grouped validations and expected members are paired off, one to one, every pair
   agrees on who won, and every group is the end of the step that is committed.
   */
  ghost predicate PairedOff(e: Event, vs: seq<Validation>, gs: seq<Group>) {
    && DistinctIds(vs) && DistinctGroups(gs)
    && (forall g | g in gs :: GroupValid(g) && EndsStep(e, g))
    && (forall i: nat | i < |vs| && Grouped(vs[i]) :: AnswersSome(vs, gs, i))
    && (forall j: nat, m | j < |gs| && m in gs[j].expected :: AnsweredBySome(vs, gs, j, m))
    && (forall i: nat, i': nat, j: nat, m | Answers(vs, gs, i, j, m) && Answers(vs, gs, i', j, m) :: i == i')
    && (forall i: nat, j: nat, m | Answers(vs, gs, i, j, m) :: VerdictFits(gs[j], m, vs[i]))
  }

  lemma GroupBelongsIs(e: Event, g: Group)
    ensures GroupBelongs(e, g) <==> GroupValid(g) && EndsStep(e, g)
  {
    hide GroupValid;
  }

  /** A member is answered as it should be exactly by a validation whose verdict fits. */
  lemma AgreesIsFits(g: Group, m: Member, v: Validation)
    ensures MemberAgrees(g, m, v) <==> VerdictFits(g, m, v)
  {
  }

  lemma TopologyPairs(e: Event, vs: seq<Validation>, gs: seq<Group>)
    requires Topology(e, vs, gs)
    ensures PairedOff(e, vs, gs)
  {
    forall g | g in gs
      ensures GroupValid(g) && EndsStep(e, g)
    {
      assert GroupAnswered(e, Members(vs), g);
      GroupBelongsIs(e, g);
    }
    hide GroupValid, EndsStep, MemberAgrees, VerdictFits, Members;
    forall i: nat | i < |vs| && Grouped(vs[i])
      ensures AnswersSome(vs, gs, i)
    {
      var j, m := EveryValidationAnswers(e, vs, gs, i);
    }
    forall j: nat, m | j < |gs| && m in gs[j].expected
      ensures AnsweredBySome(vs, gs, j, m)
    {
      var i := EveryMemberIsAnswered(e, vs, gs, j, m);
    }
    forall i: nat, i': nat, j: nat, m | Answers(vs, gs, i, j, m) && Answers(vs, gs, i', j, m)
      ensures i == i'
    {
      var x := EveryMemberIsAnswered(e, vs, gs, j, m);
    }
    forall i: nat, j: nat, m | Answers(vs, gs, i, j, m)
      ensures VerdictFits(gs[j], m, vs[i])
    {
      AnswerFits(e, vs, gs, i, j, m);
    }
  }

  lemma AnswerFits(e: Event, vs: seq<Validation>, gs: seq<Group>, i: nat, j: nat, m: Member)
    requires Topology(e, vs, gs) && Answers(vs, gs, i, j, m)
    ensures VerdictFits(gs[j], m, vs[i])
  {
    var key := ExpectedKey(gs[j], m);
    assert GroupAnswered(e, Members(vs), gs[j]);
    assert MemberAnswered(Members(vs), gs[j], m);
    MembersHold(vs, key);
    AgreesIsFits(gs[j], m, vs[i]);
    var x :| 0 <= x < |vs| && vs[x] == Members(vs)[key];
    hide VerdictFits, MemberAgrees, GroupBelongs;
  }

  /** The one validation that answers a member is the one found in the table. */
  lemma AnswerIsFound(e: Event, vs: seq<Validation>, gs: seq<Group>, j: nat, m: Member)
    requires PairedOff(e, vs, gs) && j < |gs| && m in gs[j].expected
    ensures MemberAnswered(Members(vs), gs[j], m)
  {
    var key := ExpectedKey(gs[j], m);
    assert AnsweredBySome(vs, gs, j, m);
    var i: nat :| Answers(vs, gs, i, j, m);
    MembersHold(vs, key);
    assert vs[i] in vs && Grouped(vs[i]) && KeyOf(vs[i]) == key;
    var x :| 0 <= x < |vs| && vs[x] == Members(vs)[key];
    assert Answers(vs, gs, x, j, m);
    AgreesIsFits(gs[j], m, vs[x]);
    hide VerdictFits, MemberAgrees, GroupValid, EndsStep, Members;
  }

  lemma PairsAreDistinct(e: Event, vs: seq<Validation>, gs: seq<Group>)
    requires PairedOff(e, vs, gs)
    ensures DistinctMemberships(vs)
    ensures forall v | v in vs && Grouped(v) :: Expected(gs, KeyOf(v))
  {
    hide VerdictFits, GroupValid, EndsStep;
    forall i, k | 0 <= i < k < |vs| && Grouped(vs[i]) && Grouped(vs[k])
      ensures KeyOf(vs[i]) != KeyOf(vs[k])
    {
      assert AnswersSome(vs, gs, i);
      var j: nat, m :| Answers(vs, gs, i, j, m);
      assert KeyOf(vs[i]) == KeyOf(vs[k]) ==> Answers(vs, gs, k, j, m);
    }
    forall v | v in vs && Grouped(v)
      ensures Expected(gs, KeyOf(v))
    {
      var i :| 0 <= i < |vs| && vs[i] == v;
      assert AnswersSome(vs, gs, i);
      var j: nat, m :| Answers(vs, gs, i, j, m);
      assert 0 <= j < |gs| && m in gs[j].expected && ExpectedKey(gs[j], m) == KeyOf(v);
    }
  }

  /** A commit's evidence has the topology that is checked for exactly when it pairs off. */
  lemma TopologyExactly(e: Event, vs: seq<Validation>, gs: seq<Group>)
    ensures Topology(e, vs, gs) <==> PairedOff(e, vs, gs)
  {
    if Topology(e, vs, gs) { TopologyPairs(e, vs, gs); }
    if PairedOff(e, vs, gs) {
      PairsAreDistinct(e, vs, gs);
      forall g | g in gs
        ensures GroupAnswered(e, Members(vs), g)
      {
        var j :| 0 <= j < |gs| && gs[j] == g;
        GroupBelongsIs(e, g);
        forall m | m in g.expected
          ensures MemberAnswered(Members(vs), g, m)
        {
          AnswerIsFound(e, vs, gs, j, m);
        }
      }
    }
    hide Members, GroupBelongs, EndsStep, GroupValid, VerdictFits, MemberAnswered, Answers;
  }

  // ----- the checking loops -----

  lemma DistinctNext(vs: seq<Validation>, n: nat)
    requires n < |vs|
    ensures DistinctIds(vs[..n + 1]) <==>
      DistinctIds(vs[..n]) && forall i | 0 <= i < n :: vs[i].id != vs[n].id
  {
    var a, b := vs[..n], vs[..n + 1];
    assert forall i | 0 <= i < n :: a[i] == vs[i] && b[i] == vs[i];
    assert b[n] == vs[n];
  }

  lemma MembershipsNext(vs: seq<Validation>, n: nat)
    requires n < |vs|
    ensures DistinctMemberships(vs[..n + 1]) <==>
      DistinctMemberships(vs[..n]) && (Grouped(vs[n]) ==> KeyOf(vs[n]) !in Members(vs[..n]))
    ensures Members(vs[..n + 1])
         == if Grouped(vs[n]) && KeyOf(vs[n]) !in Members(vs[..n]) then Members(vs[..n])[KeyOf(vs[n]) := vs[n]]
            else Members(vs[..n])
  {
    var a, b := vs[..n], vs[..n + 1];
    assert b[..n] == a && b[n] == vs[n];
    assert forall i | 0 <= i < n :: a[i] == vs[i] && b[i] == vs[i];
    MembersHold(a, KeyOf(vs[n]));
    hide Members;
  }

  /** First pass: duplicate ids and memberships are counted, memberships collected. */
  method CollectMembers(vs: seq<Validation>) returns (violations: nat, members: map<Key, Validation>)
    ensures violations == 0 <==> DistinctIds(vs) && DistinctMemberships(vs)
    ensures violations == 0 ==> members == Members(vs)
  {
    violations, members := 0, map[];
    var seen: set<string> := {};
    for n := 0 to |vs|
      invariant violations == 0 <==> DistinctIds(vs[..n]) && DistinctMemberships(vs[..n])
      invariant members == Members(vs[..n])
      invariant forall id :: id in seen <==> exists i :: 0 <= i < n && vs[i].id == id
    {
      DistinctNext(vs, n);
      MembershipsNext(vs, n);
      hide DistinctIds, DistinctMemberships, Members;
      if violations >= MAX_VIOLATIONS {
        Unsound(vs, n);
        return;
      }
      if vs[n].id in seen { violations := violations + 1; }
      seen := seen + {vs[n].id};
      if !Grouped(vs[n]) { continue; }
      if KeyOf(vs[n]) in members {
        violations := violations + 1;
        continue;
      }
      members := members[KeyOf(vs[n]) := vs[n]];
    }
    assert vs[..|vs|] == vs;
  }

  /** A duplicate among the first validations stays one. */
  lemma Unsound(vs: seq<Validation>, n: nat)
    requires n <= |vs| && !(DistinctIds(vs[..n]) && DistinctMemberships(vs[..n]))
    ensures !(DistinctIds(vs) && DistinctMemberships(vs))
  {
    assert forall i | 0 <= i < n :: vs[..n][i] == vs[i];
  }

  function MemberKeys(g: Group, n: nat): set<Key>
    requires n <= |g.expected|
  {
    set k | 0 <= k < n :: ExpectedKey(g, g.expected[k])
  }

  function ExpectedSet(gs: seq<Group>): set<Key> {
    if gs == [] then {}
    else ExpectedSet(gs[..|gs| - 1]) + MemberKeys(gs[|gs| - 1], |gs[|gs| - 1].expected|)
  }

  lemma {:induction false} ExpectedSetIs(gs: seq<Group>, key: Key)
    ensures key in ExpectedSet(gs) <==> Expected(gs, key)
  {
    if gs != [] {
      var init, last := gs[..|gs| - 1], gs[|gs| - 1];
      ExpectedSetIs(init, key);
      if Expected(init, key) {
        var i, m :| 0 <= i < |init| && m in init[i].expected && ExpectedKey(init[i], m) == key;
        assert gs[i] == init[i];
      }
      if key in MemberKeys(last, |last.expected|) {
        var k :| 0 <= k < |last.expected| && ExpectedKey(last, last.expected[k]) == key;
        assert gs[|gs| - 1] == last && last.expected[k] in last.expected;
      }
      if Expected(gs, key) {
        var i, m :| 0 <= i < |gs| && m in gs[i].expected && ExpectedKey(gs[i], m) == key;
        if i < |init| {
          assert init[i] == gs[i];
        } else {
          var k :| 0 <= k < |last.expected| && last.expected[k] == m;
          assert ExpectedKey(last, last.expected[k]) in MemberKeys(last, |last.expected|);
        }
      }
    }
  }

  /** The members of a group are looked up and taken out of the table, one by one. */
  method CheckMembers(g: Group, members: map<Key, Validation>, before: nat)
    returns (violations: nat, left: map<Key, Validation>)
    requires before == 0 ==> GroupValid(g)
    ensures violations == 0 <==> before == 0 && forall m | m in g.expected :: MemberAnswered(members, g, m)
    ensures violations == 0 ==> left == members - MemberKeys(g, |g.expected|)
  {
    violations, left := before, members;
    for n := 0 to |g.expected|
      invariant violations == 0 <==> before == 0 && forall k | 0 <= k < n :: MemberAnswered(members, g, g.expected[k])
      invariant violations == 0 ==> left == members - MemberKeys(g, n)
    {
      if violations >= MAX_VIOLATIONS { return; }
      var m := g.expected[n];
      var key := ExpectedKey(g, m);
      ghost var clean := violations == 0;
      if clean { KeyIsFresh(g, n); }
      if key !in left {
        violations := violations + 1;
        continue;
      }
      var member := left[key];
      if member.disposition.Won? && !g.reason.PassedGroup? { violations := violations + 1; }
      if (member.disposition.Won? || member.disposition.SatisfiedNotWinner?) && !member.passed {
        violations := violations + 1;
      }
      if g.reason.PassedGroup? {
        if m.branchId == g.winningBranch && !member.disposition.Won? { violations := violations + 1; }
        if m.branchId != g.winningBranch && member.disposition.Won? { violations := violations + 1; }
      }
      left := left - {key};
      if clean { assert MemberKeys(g, n + 1) == MemberKeys(g, n) + {key}; }
    }
  }

  lemma KeyIsFresh(g: Group, n: nat)
    requires GroupValid(g) && n < |g.expected|
    ensures ExpectedKey(g, g.expected[n]) !in MemberKeys(g, n)
  {
  }

  /** The groups before `n` were all in order. */
  ghost predicate GroupsGood(e: Event, members: map<Key, Validation>, gs: seq<Group>, n: nat) {
    && n <= |gs|
    && (forall i, j | 0 <= i < j < n :: gs[i].id != gs[j].id && gs[i].groupId != gs[j].groupId)
    && forall i | 0 <= i < n :: GroupAnswered(e, members, gs[i])
  }

  /** What one group adds to that. */
  ghost predicate GroupFits(e: Event, members: map<Key, Validation>, gs: seq<Group>, n: nat)
    requires n < |gs|
  {
    && (forall i | 0 <= i < n :: gs[i].id != gs[n].id && gs[i].groupId != gs[n].groupId)
    && GroupAnswered(e, members, gs[n])
  }

  lemma GroupsNext(e: Event, members: map<Key, Validation>, gs: seq<Group>, n: nat)
    requires n < |gs|
    ensures GroupsGood(e, members, gs, n + 1) <==> GroupsGood(e, members, gs, n) && GroupFits(e, members, gs, n)
    ensures ExpectedSet(gs[..n + 1]) == ExpectedSet(gs[..n]) + MemberKeys(gs[n], |gs[n].expected|)
  {
    assert gs[..n + 1][..n] == gs[..n];
    hide GroupAnswered;
  }

  lemma GroupsAll(e: Event, members: map<Key, Validation>, gs: seq<Group>)
    ensures GroupsGood(e, members, gs, |gs|) <==> DistinctGroups(gs) && forall g | g in gs :: GroupAnswered(e, members, g)
  {
    hide GroupAnswered;
  }

  /** Members of a new group are still in the table. */
  lemma StillThere(members: map<Key, Validation>, gs: seq<Group>, n: nat, left: map<Key, Validation>)
    requires n < |gs| && left == members - ExpectedSet(gs[..n])
    requires forall i | 0 <= i < n :: gs[i].groupId != gs[n].groupId
    ensures forall m :: MemberAnswered(left, gs[n], m) <==> MemberAnswered(members, gs[n], m)
  {
    forall m
      ensures MemberAnswered(left, gs[n], m) <==> MemberAnswered(members, gs[n], m)
    {
      var key := ExpectedKey(gs[n], m);
      ExpectedSetIs(gs[..n], key);
      assert forall i | 0 <= i < n :: gs[..n][i] == gs[i];
    }
  }

  /** One group: its own validity, its place in the commit, and then its members. */
  method CheckGroup(e: Event, gs: seq<Group>, n: nat, left: map<Key, Validation>, seenIds: set<string>,
    seenGroups: set<string>, before: nat, ghost members: map<Key, Validation>)
    returns (violations: nat, rest: map<Key, Validation>)
    requires n < |gs| && (before == 0 ==> left == members - ExpectedSet(gs[..n]))
    requires seenIds == FactIds(gs, n) && seenGroups == GroupIds(gs, n)
    ensures violations == 0 <==> before == 0 && GroupFits(e, members, gs, n)
    ensures violations == 0 ==> rest == left - MemberKeys(gs[n], |gs[n].expected|)
  {
    var g := gs[n];
    violations, rest := before, left;
    if !GroupValid(g) { violations := violations + 1; }
    if g.id in seenIds { violations := violations + 1; }
    if g.stepExecutionId != e.stepExecutionId || g.entryId != e.entryId || g.occurrence != e.occurrence {
      violations := violations + 1;
    }
    if !ReasonMatches(g.reason, e.phase) { violations := violations + 1; }
    if g.groupId in seenGroups { violations := violations + 1; }
    ghost var clean := violations == 0;
    ghost var apart := forall i | 0 <= i < n :: gs[i].id != g.id && gs[i].groupId != g.groupId;
    assert clean <==> before == 0 && GroupBelongs(e, g) && apart;
    if clean { StillThere(members, gs, n, left); }
    hide GroupValid, ExpectedSet, MemberKeys, MemberAnswered, ReasonMatches;
    violations, rest := CheckMembers(g, left, violations);
  }

  function FactIds(gs: seq<Group>, n: nat): set<string>
    requires n <= |gs|
  {
    set i | 0 <= i < n :: gs[i].id
  }

  function GroupIds(gs: seq<Group>, n: nat): set<string>
    requires n <= |gs|
  {
    set i | 0 <= i < n :: gs[i].groupId
  }

  lemma SeenNext(gs: seq<Group>, n: nat)
    requires n < |gs|
    ensures FactIds(gs, n + 1) == FactIds(gs, n) + {gs[n].id}
    ensures GroupIds(gs, n + 1) == GroupIds(gs, n) + {gs[n].groupId}
  {
  }

  lemma GroupsStart(e: Event, members: map<Key, Validation>, gs: seq<Group>)
    ensures GroupsGood(e, members, gs, 0) && members - ExpectedSet(gs[..0]) == members
    ensures FactIds(gs, 0) == {} && GroupIds(gs, 0) == {}
  {
  }

  method CheckGroups(e: Event, gs: seq<Group>, members: map<Key, Validation>, before: nat)
    returns (violations: nat, left: map<Key, Validation>)
    ensures violations == 0 <==> before == 0 && GroupsGood(e, members, gs, |gs|)
    ensures violations == 0 ==> left == members - ExpectedSet(gs)
  {
    violations, left := before, members;
    var seenIds: set<string>, seenGroups: set<string> := {}, {};
    GroupsStart(e, members, gs);
    hide GroupFits, GroupsGood, ExpectedSet, MemberKeys, FactIds, GroupIds;
    for n := 0 to |gs|
      invariant violations == 0 <==> before == 0 && GroupsGood(e, members, gs, n)
      invariant violations == 0 ==> left == members - ExpectedSet(gs[..n])
      invariant seenIds == FactIds(gs, n) && seenGroups == GroupIds(gs, n)
    {
      if violations >= MAX_VIOLATIONS {
        GroupsStayBad(e, members, gs, n);
        return;
      }
      GroupsNext(e, members, gs, n);
      SeenNext(gs, n);
      violations, left := CheckGroup(e, gs, n, left, seenIds, seenGroups, violations, members);
      seenIds, seenGroups := seenIds + {gs[n].id}, seenGroups + {gs[n].groupId};
    }
    assert gs[..|gs|] == gs;
  }

  lemma GroupsStayBad(e: Event, members: map<Key, Validation>, gs: seq<Group>, n: nat)
    requires n <= |gs|
    ensures GroupsGood(e, members, gs, |gs|) ==> GroupsGood(e, members, gs, n)
  {
    hide GroupAnswered;
  }

  /** Last pass: whatever is left in the table belongs to no group. */
  method CheckLeftovers(vs: seq<Validation>, members: map<Key, Validation>, before: nat) returns (violations: nat)
    requires before == 0 ==> DistinctMemberships(vs)
    ensures violations == 0 <==> before == 0 && forall v | v in vs && Grouped(v) :: KeyOf(v) !in members
  {
    violations := before;
    var left := members;
    for n := 0 to |vs|
      invariant violations == 0 <==> before == 0 && forall i | 0 <= i < n && Grouped(vs[i]) :: KeyOf(vs[i]) !in members
      invariant violations == 0 ==> left == members
    {
      if violations >= MAX_VIOLATIONS { return; }
      if !Grouped(vs[n]) { continue; }
      var key := KeyOf(vs[n]);
      if key !in left { continue; }
      left := left - {key};
      violations := violations + 1;
    }
  }

  /** `appendGroupTopologyViolations` finds nothing to object to exactly when the topology holds. */
  method CheckTopology(e: Event, vs: seq<Validation>, gs: seq<Group>) returns (violations: nat)
    ensures violations == 0 <==> Topology(e, vs, gs)
    ensures violations == 0 <==> PairedOff(e, vs, gs)
  {
    TopologyExactly(e, vs, gs);
    hide PairedOff;
    var members, left;
    violations, members := CollectMembers(vs);
    ghost var collected := violations;
    GroupsAll(e, members, gs);
    hide DistinctIds, DistinctMemberships, GroupAnswered, GroupsGood, Members, DistinctGroups, Expected, ExpectedSet;
    violations, left := CheckGroups(e, gs, members, violations);
    ghost var grouped := violations;
    violations := CheckLeftovers(vs, left, violations);
    if grouped == 0 {
      forall v | v in vs && Grouped(v)
        ensures KeyOf(v) !in left <==> Expected(gs, KeyOf(v))
      {
        MembersHold(vs, KeyOf(v));
        ExpectedSetIs(gs, KeyOf(v));
      }
    }
  }
}

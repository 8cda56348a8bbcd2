/**
 Safety of the event log: whatever the host refuses or breaks, the accepted
 events of every occurrence form a legal history, occurrences are numbered
 1, 2, 3, ... in order of their start, and the events of different occurrences
 nest like brackets.
 */
module EventLog {
  import opened Wrappers
  import opened Parameters
  import opened Phases
  import opened Execution

  /** The phases recorded for one occurrence of one node. */
  function History(log: seq<Event>, id: string, occurrence: nat): seq<Phase> {
    if log == [] then [] else
    var init, last := log[..|log| - 1], log[|log| - 1];
    History(init, id, occurrence) + (if last.node == id && last.occurrence == occurrence then [last.phase] else [])
  }

  /** The occurrence numbers of a node in the order they started. */
  function Starts(log: seq<Event>, id: string): seq<nat> {
    if log == [] then [] else
    var init, last := log[..|log| - 1], log[|log| - 1];
    Starts(init, id) + (if last.node == id && last.phase.Running? then [last.occurrence] else [])
  }

  predicate SameOccurrence(a: Event, b: Event) {
    a.node == b.node && a.occurrence == b.occurrence
  }

  ghost predicate Mentions(log: seq<Event>, id: string, occurrence: nat) {
    exists i :: 0 <= i < |log| && log[i].node == id && log[i].occurrence == occurrence
  }

  /** Two occurrences never interleave: their events nest or follow one another. */
  ghost predicate Nested(log: seq<Event>) {
    forall i, j, k, l | 0 <= i < j < k < l < |log| ::
      SameOccurrence(log[i], log[k]) && SameOccurrence(log[j], log[l]) ==> SameOccurrence(log[i], log[j])
  }

  ghost predicate AllLegal(log: seq<Event>) {
    forall id, o :: Legal(History(log, id, o))
  }

  /** The numbers lo + 1, lo + 2, ..., hi. */
  function Upto(lo: nat, hi: nat): seq<nat>
    requires lo <= hi
  {
    seq(hi - lo, i requires 0 <= i => lo + 1 + i)
  }

  lemma UptoFacts(a: nat, b: nat, c: nat)
    requires a <= b <= c
    ensures Upto(a, a) == [] && Upto(a, a + 1) == [a + 1]
    ensures Upto(a, b) + Upto(b, c) == Upto(a, c)
  {
  }

  // ----- appending logs -----

  lemma {:induction false} HistoryAppend(a: seq<Event>, b: seq<Event>, id: string, o: nat)
    ensures History(a + b, id, o) == History(a, id, o) + History(b, id, o)
  {
    if b == [] {
      assert a + b == a;
    } else {
      HistoryAppend(a, b[..|b| - 1], id, o);
      assert (a + b)[..|a + b| - 1] == a + b[..|b| - 1];
    }
  }

  lemma {:induction false} StartsAppend(a: seq<Event>, b: seq<Event>, id: string)
    ensures Starts(a + b, id) == Starts(a, id) + Starts(b, id)
  {
    if b == [] {
      assert a + b == a;
    } else {
      StartsAppend(a, b[..|b| - 1], id);
      assert (a + b)[..|a + b| - 1] == a + b[..|b| - 1];
    }
  }

  lemma {:induction false} HistoryEmpty(log: seq<Event>, id: string, o: nat)
    requires !Mentions(log, id, o)
    ensures History(log, id, o) == []
  {
    if log != [] {
      var init := log[..|log| - 1];
      assert !Mentions(init, id, o) by {
        forall i | 0 <= i < |init|
          ensures !(init[i].node == id && init[i].occurrence == o)
        {
          assert log[i] == init[i];
        }
      }
      HistoryEmpty(init, id, o);
    }
  }

  // ----- what one run adds -----

  function Added(s: State, s': State): seq<Event>
    requires s.log <= s'.log
  {
    s'.log[|s.log|..]
  }

  /** The events a run adds belong to occurrences that began during the run. */
  ghost predicate Fresh(s: State, s': State, added: seq<Event>) {
    forall i | 0 <= i < |added| ::
      Begun(s, added[i].node) < added[i].occurrence <= Begun(s', added[i].node)
  }

  ghost predicate Grows(s: State, s': State) {
    s.log <= s'.log && forall id :: Begun(s, id) <= Begun(s', id)
  }

  ghost predicate Numbered(s: State, s': State, added: seq<Event>)
    requires Grows(s, s')
  {
    forall id :: Starts(added, id) == Upto(Begun(s, id), Begun(s', id))
  }

  /** Everything the log promises about the part a run adds. */
  ghost predicate Safe(s: State, s': State) {
    && Grows(s, s')
    && Fresh(s, s', Added(s, s'))
    && AllLegal(Added(s, s'))
    && Nested(Added(s, s'))
    && Numbered(s, s', Added(s, s'))
  }

  lemma SafeStay(s: State, s': State)
    requires s'.log == s.log && s'.occurrences == s.occurrences
    ensures Safe(s, s')
  {
    assert Added(s, s') == [];
    forall id
      ensures Starts([], id) == Upto(Begun(s, id), Begun(s', id))
    {
      assert Begun(s', id) == Begun(s, id);
    }
  }

  /** Runs one after the other concern different occurrences. */
  lemma Disjoint(s: State, m: State, s': State, a: Event, b: Event)
    requires Safe(s, m) && Safe(m, s')
    requires a in Added(s, m) && b in Added(m, s')
    ensures !SameOccurrence(a, b)
  {
  }

  ghost predicate Apart(a: seq<Event>, b: seq<Event>) {
    forall i, j | 0 <= i < |a| && 0 <= j < |b| :: !SameOccurrence(a[i], b[j])
  }

  lemma NestedConcat(a: seq<Event>, b: seq<Event>)
    requires Nested(a) && Nested(b) && Apart(a, b)
    ensures Nested(a + b)
  {
    var c, n := a + b, |a|;
    forall i, j, k, l | 0 <= i < j < k < l < |c| && SameOccurrence(c[i], c[k]) && SameOccurrence(c[j], c[l])
      ensures SameOccurrence(c[i], c[j])
    {
      if l < n {
        assert c[i] == a[i] && c[j] == a[j] && c[k] == a[k] && c[l] == a[l];
      } else if n <= i {
        assert c[i] == b[i - n] && c[j] == b[j - n] && c[k] == b[k - n] && c[l] == b[l - n];
      }
    }
  }

  lemma LegalConcat(a: seq<Event>, b: seq<Event>)
    requires AllLegal(a) && AllLegal(b) && Apart(a, b)
    ensures AllLegal(a + b)
  {
    forall id, o
      ensures Legal(History(a + b, id, o))
    {
      HistoryAppend(a, b, id, o);
      if Mentions(a, id, o) {
        var i :| 0 <= i < |a| && a[i].node == id && a[i].occurrence == o;
        assert !Mentions(b, id, o) by {
          forall j | 0 <= j < |b|
            ensures !(b[j].node == id && b[j].occurrence == o)
          {
            assert !SameOccurrence(a[i], b[j]);
          }
        }
        HistoryEmpty(b, id, o);
        assert History(a, id, o) + [] == History(a, id, o);
      } else {
        HistoryEmpty(a, id, o);
        assert [] + History(b, id, o) == History(b, id, o);
      }
    }
  }

  lemma NumberedConcat(s: State, m: State, s': State, a: seq<Event>, b: seq<Event>)
    requires Grows(s, m) && Grows(m, s') && Grows(s, s')
    requires Numbered(s, m, a) && Numbered(m, s', b)
    ensures Numbered(s, s', a + b)
  {
    hide Begun, Starts, Upto;
    forall id
      ensures Starts(a + b, id) == Upto(Begun(s, id), Begun(s', id))
    {
      StartsAppend(a, b, id);
      assert Starts(a, id) == Upto(Begun(s, id), Begun(m, id));
      assert Starts(b, id) == Upto(Begun(m, id), Begun(s', id));
      UptoFacts(Begun(s, id), Begun(m, id), Begun(s', id));
    }
  }

  lemma FreshConcat(s: State, m: State, s': State, a: seq<Event>, b: seq<Event>)
    requires Grows(s, m) && Grows(m, s')
    requires Fresh(s, m, a) && Fresh(m, s', b)
    ensures Grows(s, s') && Fresh(s, s', a + b)
  {
    var c := a + b;
    forall i | 0 <= i < |c|
      ensures Begun(s, c[i].node) < c[i].occurrence <= Begun(s', c[i].node)
    {
      var e := c[i];
      assert Begun(s, e.node) <= Begun(m, e.node) <= Begun(s', e.node);
      assert e == if i < |a| then a[i] else b[i - |a|];
    }
  }

  lemma AddedThen(s: State, m: State, s': State)
    requires s.log <= m.log <= s'.log
    ensures s.log <= s'.log && Added(s, s') == Added(s, m) + Added(m, s')
  {
  }

  /** Runs one after the other are together safe. */
  lemma SafeThen(s: State, m: State, s': State)
    requires Safe(s, m) && Safe(m, s')
    ensures Safe(s, s')
  {
    var a, b := Added(s, m), Added(m, s');
    AddedThen(s, m, s');
    assert Apart(a, b) by {
      forall i, j | 0 <= i < |a| && 0 <= j < |b|
        ensures !SameOccurrence(a[i], b[j])
      {
        Disjoint(s, m, s', a[i], b[j]);
      }
    }
    hide Apart, Nested, AllLegal, Numbered, Fresh, Grows;
    FreshConcat(s, m, s', a, b);
    NestedConcat(a, b);
    LegalConcat(a, b);
    NumberedConcat(s, m, s', a, b);
  }

  // ----- a leaf -----

  lemma {:induction false} HistoryOfOne(id: string, o: nat, phases: seq<Phase>, other: string, p: nat)
    ensures History(EventsOf(id, o, phases), other, p) == if other == id && p == o then phases else []
  {
    var log := EventsOf(id, o, phases);
    if phases != [] {
      var init := phases[..|phases| - 1];
      HistoryOfOne(id, o, init, other, p);
      assert log[..|log| - 1] == EventsOf(id, o, init);
      assert init + [phases[|phases| - 1]] == phases;
    }
  }

  lemma {:induction false} StartsOfOne(id: string, o: nat, phases: seq<Phase>, other: string)
    requires Legal(phases)
    ensures Starts(EventsOf(id, o, phases), other) == if other == id && phases != [] then [o] else []
  {
    var log := EventsOf(id, o, phases);
    if phases != [] {
      var init := phases[..|phases| - 1];
      StartsOfOne(id, o, init, other);
      assert log[..|log| - 1] == EventsOf(id, o, init);
      LegalMeaning(phases, |phases| - 1);
    }
  }

  /** Opening one occurrence raises the count of its node by one and of no other node. */
  lemma BegunAfterOpening(s: State, s': State, id: string)
    requires s'.occurrences == s.occurrences[id := Begun(s, id) + 1]
    ensures forall x :: Begun(s', x) == if x == id then Begun(s, id) + 1 else Begun(s, x)
  {
  }

  lemma LegalOne(id: string, o: nat, phases: seq<Phase>)
    requires Legal(phases)
    ensures AllLegal(EventsOf(id, o, phases))
  {
    forall x, p
      ensures Legal(History(EventsOf(id, o, phases), x, p))
    {
      HistoryOfOne(id, o, phases, x, p);
    }
  }

  lemma NumberedOne(s: State, s': State, id: string, phases: seq<Phase>)
    requires phases != [] && Legal(phases)
    requires s'.occurrences == s.occurrences[id := Begun(s, id) + 1] && Grows(s, s')
    ensures Numbered(s, s', EventsOf(id, Begun(s, id) + 1, phases))
  {
    var o := Begun(s, id) + 1;
    BegunAfterOpening(s, s', id);
    hide Legal, Begun, Starts, EventsOf, Upto;
    forall x
      ensures Starts(EventsOf(id, o, phases), x) == Upto(Begun(s, x), Begun(s', x))
    {
      StartsOfOne(id, o, phases, x);
      UptoFacts(Begun(s, x), Begun(s, x), Begun(s, x));
    }
  }

  /** A leaf's run is safe when its phases are legal. */
  lemma SafeOne(s: State, s': State, id: string, phases: seq<Phase>)
    requires phases != [] && Legal(phases)
    requires s'.occurrences == s.occurrences[id := Begun(s, id) + 1]
    requires s'.log == s.log + EventsOf(id, Begun(s, id) + 1, phases)
    ensures Safe(s, s')
  {
    var added := EventsOf(id, Begun(s, id) + 1, phases);
    BegunAfterOpening(s, s', id);
    assert Added(s, s') == added;
    assert Grows(s, s');
    assert Fresh(s, s', added);
    assert Nested(added);
    LegalOne(id, Begun(s, id) + 1, phases);
    NumberedOne(s, s', id, phases);
    hide Grows, Fresh, Nested, AllLegal, Numbered;
  }

  // ----- a container -----

  /** What a container's own occurrence adds after its content: nothing, or one terminal event. */
  ghost predicate Closing(tail: seq<Event>, id: string, o: nat) {
    tail == [] || (exists p: Phase :: p.Terminal() && tail == [Event(id, o, p)])
  }

  lemma NestedWrap(id: string, o: nat, content: seq<Event>, tail: seq<Event>)
    requires Nested(content) && Closing(tail, id, o) && !Mentions(content, id, o)
    ensures Nested([Event(id, o, Running)] + content + tail)
  {
    var c, n := [Event(id, o, Running)] + content + tail, |content|;
    forall i, j, k, l | 0 <= i < j < k < l < |c| && SameOccurrence(c[i], c[k]) && SameOccurrence(c[j], c[l])
      ensures SameOccurrence(c[i], c[j])
    {
      assert c[j] == content[j - 1] && c[k] == content[k - 1];
      if 0 < i && l <= n {
        assert c[i] == content[i - 1] && c[l] == content[l - 1];
      }
    }
  }

  /** Histories inside a container: its own is RUNNING and its closing, the rest is its content's. */
  lemma HistoryWrap(id: string, o: nat, content: seq<Event>, last: seq<Phase>, x: string, p: nat)
    requires !Mentions(content, id, o)
    ensures History(EventsOf(id, o, [Running]) + content + EventsOf(id, o, last), x, p)
         == if x == id && p == o then [Running] + last else History(content, x, p)
  {
    hide Mentions, History;
    var first, tail := EventsOf(id, o, [Running]), EventsOf(id, o, last);
    HistoryAppend(first, content, x, p);
    HistoryAppend(first + content, tail, x, p);
    HistoryOfOne(id, o, [Running], x, p);
    HistoryOfOne(id, o, last, x, p);
    if x == id && p == o {
      HistoryEmpty(content, id, o);
      assert [Running] + [] + last == [Running] + last;
    } else {
      assert [] + History(content, x, p) + [] == History(content, x, p);
    }
  }

  lemma ClosingPhases(tail: seq<Event>, id: string, o: nat) returns (last: seq<Phase>)
    requires Closing(tail, id, o)
    ensures tail == EventsOf(id, o, last) && Legal([Running] + last)
    ensures [Event(id, o, Running)] == EventsOf(id, o, [Running])
  {
    LegalPrefixes();
    if tail == [] {
      last := [];
      assert [Running] + [] == [Running];
    } else {
      last := [tail[0].phase];
      LegalAppend([Running], tail[0].phase);
    }
  }

  lemma LegalWrap(id: string, o: nat, content: seq<Event>, tail: seq<Event>)
    requires AllLegal(content) && Closing(tail, id, o) && !Mentions(content, id, o)
    ensures AllLegal([Event(id, o, Running)] + content + tail)
  {
    var last := ClosingPhases(tail, id, o);
    hide Mentions, Legal, Closing, History;
    forall x, p
      ensures Legal(History([Event(id, o, Running)] + content + tail, x, p))
    {
      HistoryWrap(id, o, content, last, x, p);
    }
  }

  lemma StartsWrap(id: string, o: nat, content: seq<Event>, tail: seq<Event>, x: string)
    requires Closing(tail, id, o)
    ensures Starts([Event(id, o, Running)] + content + tail, x)
         == (if x == id then [o] else []) + Starts(content, x)
  {
    var first := [Event(id, o, Running)];
    assert first[..0] == [];
    assert tail != [] ==> tail[..0] == [];
    assert Starts([], x) == [] && Starts(tail, x) == [];
    assert Starts(first, x) == Starts([], x) + (if x == id then [o] else []);
    StartsAppend(first, content, x);
    StartsAppend(first + content, tail, x);
    hide Starts;
    var own := if x == id then [o] else [];
    assert [] + own + Starts(content, x) + [] == own + Starts(content, x);
  }

  lemma NumberedWrap(s: State, m: State, s': State, id: string, content: seq<Event>, tail: seq<Event>)
    requires m.occurrences == s.occurrences[id := Begun(s, id) + 1]
    requires Grows(m, s') && Numbered(m, s', content) && Grows(s, s')
    requires Closing(tail, id, Begun(s, id) + 1)
    ensures Numbered(s, s', [Event(id, Begun(s, id) + 1, Running)] + content + tail)
  {
    var o := Begun(s, id) + 1;
    BegunAfterOpening(s, m, id);
    hide Begun, Closing, Starts, Upto;
    forall x
      ensures Starts([Event(id, o, Running)] + content + tail, x) == Upto(Begun(s, x), Begun(s', x))
    {
      StartsWrap(id, o, content, tail, x);
      assert Starts(content, x) == Upto(Begun(m, x), Begun(s', x));
      if x == id {
        UptoFacts(o - 1, o, Begun(s', x));
      } else {
        assert [] + Starts(content, x) == Starts(content, x);
      }
    }
  }

  lemma FreshWrap(s: State, m: State, s': State, id: string, content: seq<Event>, tail: seq<Event>)
    requires m.occurrences == s.occurrences[id := Begun(s, id) + 1]
    requires Grows(m, s') && Fresh(m, s', content) && Closing(tail, id, Begun(s, id) + 1)
    ensures !Mentions(content, id, Begun(s, id) + 1)
    ensures Fresh(s, s', [Event(id, Begun(s, id) + 1, Running)] + content + tail)
    ensures forall x :: Begun(s, x) <= Begun(s', x)
  {
    var o := Begun(s, id) + 1;
    BegunAfterOpening(s, m, id);
    hide Begun;
    forall i | 0 <= i < |content|
      ensures !(content[i].node == id && content[i].occurrence == o)
    {
      assert Begun(m, content[i].node) < content[i].occurrence;
    }
    var added := [Event(id, o, Running)] + content + tail;
    forall i | 0 <= i < |added|
      ensures Begun(s, added[i].node) < added[i].occurrence <= Begun(s', added[i].node)
    {
      if i == 0 || i > |content| {
        assert added[i].node == id && added[i].occurrence == o;
      } else {
        assert added[i] == content[i - 1];
      }
    }
  }

  lemma SameCounts(m: State, m': State, s': State, content: seq<Event>, tail: seq<Event>)
    requires Grows(m, m') && Fresh(m, m', content) && Numbered(m, m', content) && content == Added(m, m')
    requires s'.occurrences == m'.occurrences && s'.log == m'.log + tail
    ensures Grows(m, s') && Fresh(m, s', content) && Numbered(m, s', content)
    ensures s'.log == m.log + content + tail
  {
    hide Starts, Upto;
    assert m'.log == m.log + content;
    assert forall x :: Begun(s', x) == Begun(m', x);
  }

  lemma GrowsWrap(s: State, m: State, s': State)
    requires s.log <= m.log && Grows(m, s') && forall x :: Begun(s, x) <= Begun(s', x)
    ensures Grows(s, s')
  {
    assert s'.log == m.log + s'.log[|m.log|..];
  }

  /** A container's run is safe when its content is. */
  lemma SafeWrap(s: State, m: State, m': State, s': State, id: string, tail: seq<Event>)
    requires m.occurrences == s.occurrences[id := Begun(s, id) + 1]
    requires m.log == s.log + [Event(id, Begun(s, id) + 1, Running)]
    requires Safe(m, m')
    requires s'.occurrences == m'.occurrences && s'.log == m'.log + tail
    requires Closing(tail, id, Begun(s, id) + 1)
    ensures Safe(s, s')
  {
    var o, content := Begun(s, id) + 1, Added(m, m');
    var added := [Event(id, o, Running)] + content + tail;
    SameCounts(m, m', s', content, tail);
    assert Added(s, s') == added;
    hide Begun, Nested, AllLegal, Closing, Mentions, Fresh, Numbered, Grows, Added;
    FreshWrap(s, m, s', id, content, tail);
    GrowsWrap(s, m, s');
    NestedWrap(id, o, content, tail);
    LegalWrap(id, o, content, tail);
    NumberedWrap(s, m, s', id, content, tail);
  }

  // ----- every run -----

  lemma EndCloses(h: Host, s: State, id: string, o: nat, ok: bool) returns (tail: seq<Event>)
    ensures var (s', _) := End(h, s, id, o, ok);
            s'.occurrences == s.occurrences && s'.log == s.log + tail && Closing(tail, id, o)
  {
    var (s', _) := End(h, s, id, o, ok);
    tail := s'.log[|s.log|..];
    if ok {
      assert Closing([Event(id, o, Succeeded)], id, o);
    } else {
      assert Closing([Event(id, o, if h.canceled(s.clock) then Canceled else Failed)], id, o);
    }
  }

  lemma ContainerSafe(h: Host, s: State, scope: Scope, m': State, id: string, ok: bool)
    requires Begin(h, s, scope, id).1 && Safe(Begin(h, s, scope, id).0, m')
    ensures Safe(s, End(h, m', id, Begun(s, id) + 1, ok).0)
  {
    var m := Begin(h, s, scope, id).0;
    var tail := EndCloses(h, m', id, Begun(s, id) + 1, ok);
    SafeWrap(s, m, m', End(h, m', id, Begun(s, id) + 1, ok).0, id, tail);
  }

  /** Whatever the host does, running a tree keeps the log safe. */
  lemma {:induction false} ExecSafe(h: Host, s: State, scope: Scope, node: Node)
    ensures Safe(s, Exec(h, s, scope, node).0)
    decreases node, 0, 0
  {
    hide Safe, BindingsHold, LeafScript, End, CallScope;
    match node {
      case LeafNode(id, leaf) => LeafSafe(h, s, scope, id, leaf);
      case RepeatNode(id, times, children) =>
        BeginSafe(h, s, scope, id);
        if times < 0 {
          SafeStay(s, s);
        } else if Begin(h, s, scope, id).1 {
          var m := Begin(h, s, scope, id).0;
          ExecTimesSafe(h, m, scope, children, times);
          var (m', ok) := ExecTimes(h, m, scope, children, times);
          ContainerSafe(h, s, scope, m', id, ok);
        }
      case WorkflowNode(id, steps, owned) =>
        var inner := if owned.Some? then owned.value else scope;
        BeginSafe(h, s, inner, id);
        if Begin(h, s, inner, id).1 {
          var m := Begin(h, s, inner, id).0;
          ExecAllSafe(h, m, inner, steps);
          var (m', ok) := ExecAll(h, m, inner, steps);
          ContainerSafe(h, s, inner, m', id, ok);
        }
      case CallNode(id, target, values, constraints) =>
        BeginSafe(h, s, scope, id);
        if Begin(h, s, scope, id).1 {
          var m := Begin(h, s, scope, id).0;
          SafeStay(m, m);
          ExecSafe(h, m, CallScope(values, scope), target);
          var (m', ok) :=
            if BindingsHold(values, constraints) then Exec(h, m, CallScope(values, scope), target) else (m, false);
          ContainerSafe(h, s, scope, m', id, ok);
        }
    }
  }

  lemma LeafSafe(h: Host, s: State, scope: Scope, id: string, leaf: Leaf)
    ensures Safe(s, ExecLeaf(h, s, scope, id, leaf).0)
  {
    var script := LeafScript(h, s.clock, leaf, scope);
    LeafIsLegal(h, s.clock, leaf, scope);
    hide LeafScript, Safe, Legal;
    var s' := ExecLeaf(h, s, scope, id, leaf).0;
    if script.phases == [] { SafeStay(s, s'); } else { SafeOne(s, s', id, script.phases); }
  }

  /** A refused RUNNING event leaves nothing behind. */
  lemma BeginSafe(h: Host, s: State, scope: Scope, id: string)
    ensures !Begin(h, s, scope, id).1 ==> Safe(s, Begin(h, s, scope, id).0)
  {
    if !Begin(h, s, scope, id).1 { SafeStay(s, Begin(h, s, scope, id).0); }
  }

  lemma {:induction false} ExecAllSafe(h: Host, s: State, scope: Scope, nodes: seq<Node>)
    ensures Safe(s, ExecAll(h, s, scope, nodes).0)
    decreases nodes, 0, 0
  {
    hide Safe, Exec;
    if nodes == [] {
      SafeStay(s, s);
    } else {
      ExecSafe(h, s, scope, nodes[0]);
      var (s1, ok) := Exec(h, s, scope, nodes[0]);
      if ok {
        ExecAllSafe(h, s1, scope, nodes[1..]);
        SafeThen(s, s1, ExecAll(h, s1, scope, nodes[1..]).0);
      }
    }
  }

  lemma {:induction false} ExecTimesSafe(h: Host, s: State, scope: Scope, nodes: seq<Node>, n: nat)
    ensures Safe(s, ExecTimes(h, s, scope, nodes, n).0)
    decreases nodes, 1, n
  {
    hide Safe, ExecAll;
    if n == 0 {
      SafeStay(s, s);
    } else {
      ExecAllSafe(h, s, scope, nodes);
      var (s1, ok) := ExecAll(h, s, scope, nodes);
      if ok {
        ExecTimesSafe(h, s1, scope, nodes, n - 1);
        SafeThen(s, s1, ExecTimes(h, s1, scope, nodes, n - 1).0);
      }
    }
  }

  /** The whole log of a run: legal histories, consecutive occurrences, proper nesting. */
  ghost predicate SafeLog(log: seq<Event>, s: State) {
    && AllLegal(log)
    && Nested(log)
    && (forall id :: Starts(log, id) == Upto(0, Begun(s, id)))
  }

  lemma RunIsSafe(h: Host, scope: Scope, root: Node)
    ensures var s := Exec(h, INITIAL, scope, root).0; SafeLog(s.log, s)
  {
    ExecSafe(h, INITIAL, scope, root);
    hide Exec, AllLegal, Nested;
    var s := Exec(h, INITIAL, scope, root).0;
    assert Added(INITIAL, s) == s.log;
    forall id
      ensures Starts(s.log, id) == Upto(0, Begun(s, id))
    {
      assert Begun(INITIAL, id) == 0;
    }
  }
}

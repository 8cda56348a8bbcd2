/**
 The runtime that executes a compiled tree (domain/node/runtime.go,
 domain/node/step.go, domain/node/composite.go, domain/node/validation.go):
 occurrence stacks, the guarded phase machine of leaves, and parameter scopes
 that are swapped in for a call and restored after it.
 */
module Runtimes {
  import opened Wrappers
  import opened Plan
  import opened Parameters
  import opened Phases
  import opened Execution
  import EventLog
  import RunOutcomes

  type Stacks = map<string, seq<nat>>

  /** What the runtime looked like when a leaf run began. */
  datatype Base = Base(state: State, active: Stacks, scope: Scope)

  function StackOf(active: Stacks, id: string): seq<nat> {
    if id in active then active[id] else []
  }

  /** The stack without the last entry equal to `o`. */
  function RemoveLast(stack: seq<nat>, o: nat): seq<nat> {
    if stack == [] then []
    else if stack[|stack| - 1] == o then stack[..|stack| - 1]
    else RemoveLast(stack[..|stack| - 1], o) + [stack[|stack| - 1]]
  }

  function Released(active: Stacks, id: string, o: nat): Stacks {
    if o !in StackOf(active, id) then active else
    var rest := RemoveLast(StackOf(active, id), o);
    if rest == [] then active - {id} else active[id := rest]
  }

  function Pushed(active: Stacks, id: string, o: nat): Stacks {
    active[id := StackOf(active, id) + [o]]
  }

  /** No empty stacks are kept, and every active occurrence has begun. */
  ghost predicate ActiveOk(active: Stacks, s: State) {
    && (forall id | id in active :: active[id] != [])
    && (forall id, o | id in active && o in active[id] :: o <= Begun(s, id))
  }

  /** Releasing the occurrence just pushed restores the stacks. */
  lemma ReleasePushed(active: Stacks, s: State, id: string)
    requires ActiveOk(active, s)
    ensures Released(Pushed(active, id, Begun(s, id) + 1), id, Begun(s, id) + 1) == active
    ensures Released(active, id, Begun(s, id) + 1) == active
    ensures var stack := StackOf(Pushed(active, id, Begun(s, id) + 1), id);
            stack != [] && stack[|stack| - 1] == Begun(s, id) + 1
  {
    var o := Begun(s, id) + 1;
    var stack := StackOf(active, id);
    assert (stack + [o])[..|stack|] == stack;
    assert RemoveLast(stack + [o], o) == stack;
    if id !in active {
      assert active[id := [o]] - {id} == active;
    } else {
      assert active[id := stack + [o]][id := stack] == active;
    }
  }

  lemma PushedOk(active: Stacks, s: State, s': State, id: string)
    requires ActiveOk(active, s) && s'.occurrences == s.occurrences[id := Begun(s, id) + 1]
    ensures ActiveOk(Pushed(active, id, Begun(s, id) + 1), s')
  {
  }

  /** A container's terminal event lands on its own occurrence and releases it. */
  lemma EmittedAtEnd(h: Host, s: State, outer: Stacks, begin: State, scope: Scope, id: string, terminal: Phase)
    requires ActiveOk(outer, begin) && terminal.Terminal()
    ensures Emitted(h, s, Pushed(outer, id, Begun(begin, id) + 1), scope, id, terminal)
         == if h.accepts(s.clock) then
              (Recorded(s, Event(id, Begun(begin, id) + 1, terminal), s.clock + 1), outer, true)
            else
              (s.(clock := s.clock + 1), Pushed(outer, id, Begun(begin, id) + 1), false)
  {
    ReleasePushed(outer, begin, id);
    hide ActiveOk, Released, Pushed, StackOf;
  }

  lemma PopOk(outer: Stacks, begin: State, s: State, id: string, o: nat)
    requires ActiveOk(outer, begin) && ActiveOk(Pushed(outer, id, o), s)
    ensures ActiveOk(outer, s)
  {
    forall x, p | x in outer && p in outer[x]
      ensures p <= Begun(s, x)
    {
      assert x in Pushed(outer, id, o) && p in Pushed(outer, id, o)[x];
    }
  }

  lemma SameCountsOk(active: Stacks, s: State, s': State)
    requires ActiveOk(active, s) && s.occurrences == s'.occurrences
    ensures ActiveOk(active, s')
  {
    LaterOk(active, s, s');
  }

  lemma LaterOk(active: Stacks, s: State, s': State)
    requires ActiveOk(active, s) && forall id :: Begun(s, id) <= Begun(s', id)
    ensures ActiveOk(active, s')
  {
  }

  /**
   Emitting one event: RUNNING opens the node's next occurrence; any other phase
   belongs to its innermost active occurrence, and a terminal phase releases it.
   A refused event changes nothing but the host's clock.
   */
  function Emitted(h: Host, s: State, active: Stacks, scope: Scope, id: string, phase: Phase): (State, Stacks, bool) {
    var stack := StackOf(active, id);
    if phase.Running? then
      if h.accepts(s.clock) then
        (Opened(s, scope, id, s.clock + 1), Pushed(active, id, Begun(s, id) + 1), true)
      else (s.(clock := s.clock + 1), active, false)
    else if stack == [] then (s, active, false)
    else if !h.accepts(s.clock) then (s.(clock := s.clock + 1), active, false)
    else
      var o := stack[|stack| - 1];
      (Recorded(s, Event(id, o, phase), s.clock + 1),
       if phase.Terminal() then Released(active, id, o) else active,
       true)
  }

  lemma EventsAppend(id: string, o: nat, phases: seq<Phase>, next: Phase)
    ensures EventsOf(id, o, phases + [next]) == EventsOf(id, o, phases) + [Event(id, o, next)]
  {
  }

  /** The state of a leaf run that has recorded `phases`. */
  function LeafState(base: Base, id: string, phases: seq<Phase>, clock: nat): State {
    var o := Begun(base.state, id) + 1;
    State(clock, base.state.occurrences[id := o], base.state.log + EventsOf(id, o, phases),
      base.state.visits + [Visit(id, base.scope)])
  }

  /** The leaf's occurrence is active until a terminal phase. */
  function LeafActive(base: Base, id: string, phases: seq<Phase>): Stacks {
    if phases != [] && phases[|phases| - 1].Terminal() then base.active
    else Pushed(base.active, id, Begun(base.state, id) + 1)
  }

  lemma EmittedStart(h: Host, s: State, base: Base, id: string)
    requires ActiveOk(base.active, base.state) && s == base.state.(clock := s.clock)
    ensures Emitted(h, s, base.active, base.scope, id, Running)
         == if h.accepts(s.clock)
            then (LeafState(base, id, [Running], s.clock + 1), LeafActive(base, id, [Running]), true)
            else (s.(clock := s.clock + 1), base.active, false)
    ensures StackOf(LeafActive(base, id, [Running]), id) != []
    ensures var stack := StackOf(LeafActive(base, id, [Running]), id);
            stack[|stack| - 1] == Begun(base.state, id) + 1
  {
    ReleasePushed(base.active, base.state, id);
    var o := Begun(base.state, id) + 1;
    assert EventsOf(id, o, [Running]) == [Event(id, o, Running)];
    hide ActiveOk, Pushed, StackOf, Released;
    assert Begun(s, id) == Begun(base.state, id);
  }

  /** Inside a leaf, an event lands on the leaf's own occurrence. */
  lemma EmittedInLeaf(h: Host, s: State, base: Base, id: string, phases: seq<Phase>, next: Phase)
    requires ActiveOk(base.active, base.state) && !next.Running?
    requires phases != [] && !phases[|phases| - 1].Terminal() && s == LeafState(base, id, phases, s.clock)
    ensures Emitted(h, s, LeafActive(base, id, phases), base.scope, id, next)
         == if h.accepts(s.clock)
            then (LeafState(base, id, phases + [next], s.clock + 1), LeafActive(base, id, phases + [next]), true)
            else (s.(clock := s.clock + 1), LeafActive(base, id, phases), false)
  {
    var o := Begun(base.state, id) + 1;
    ReleasePushed(base.active, base.state, id);
    EventsAppend(id, o, phases, next);
    hide Released, Pushed, StackOf, ActiveOk, EventsOf, Begun;
    assert base.state.log + (EventsOf(id, o, phases) + [Event(id, o, next)])
        == base.state.log + EventsOf(id, o, phases) + [Event(id, o, next)];
  }

  /** The phase guard of one leaf run. */
  class StepExecution {
    const nodeId: string
    var phase: Option<Phase>
    var occurrence: nat

    constructor (nodeId: string)
      ensures this.nodeId == nodeId && phase == None
    {
      this.nodeId := nodeId;
      phase, occurrence := None, 0;
    }
  }

  class Runtime {
    const host: Host
    var clock: nat
    var parameterScope: Scope
    var occurrences: map<string, nat>
    var active: Stacks
    var log: seq<Event>
    ghost var visits: seq<Visit>

    constructor (host: Host)
      ensures this.host == host && State() == INITIAL && active == map[] && parameterScope == map[] && Valid()
    {
      this.host := host;
      clock, parameterScope, occurrences, active, log, visits := 0, map[], map[], map[], [], [];
    }

    ghost function State(): State
      reads this
    {
      Execution.State(clock, occurrences, log, visits)
    }

    ghost predicate Valid()
      reads this
    {
      ActiveOk(active, State())
    }

    // ----- events -----

    method ReleaseOccurrence(id: string, occurrence: nat)
      modifies this`active
      ensures active == Released(old(active), id, occurrence)
    {
      var stack := StackOf(active, id);
      var i := |stack|;
      while i > 0
        invariant 0 <= i <= |stack| && active == old(active)
        invariant occurrence !in stack[i..]
      {
        i := i - 1;
        if stack[i] == occurrence {
          RemoveLastAt(stack, i, occurrence);
          stack := stack[..i] + stack[i + 1..];
          if stack == [] { active := active - {id}; } else { active := active[id := stack]; }
          return;
        }
      }
    }

    /** Accepts an event through the sink; RUNNING opens an occurrence, a terminal phase releases it. */
    method Emit(id: string, phase: Phase) returns (ok: bool)
      modifies this`clock, this`occurrences, this`active, this`log, this`visits
      ensures (State(), active, ok) == Emitted(host, old(State()), old(active), parameterScope, id, phase)
    {
      var stack := StackOf(active, id);
      var occurrence;
      if phase.Running? {
        occurrence := (if id in occurrences then occurrences[id] else 0) + 1;
      } else {
        if stack == [] { return false; }
        occurrence := stack[|stack| - 1];
      }
      ok := host.accepts(clock);
      clock := clock + 1;
      if !ok { return; }
      log := log + [Event(id, occurrence, phase)];
      if phase.Running? {
        occurrences := occurrences[id := occurrence];
        active := active[id := stack + [occurrence]];
        visits := visits + [Visit(id, parameterScope)];
      } else if phase.Terminal() {
        ReleaseOccurrence(id, occurrence);
      }
    }

    // ----- leaves -----

    /** The leaf that began at `base` has recorded exactly `phases`, and is active until a terminal one. */
    ghost predicate InLeaf(base: Base, id: string, phases: seq<Phase>)
      reads this`occurrences, this`log, this`visits, this`parameterScope, this`active
    {
      && ActiveOk(base.active, base.state)
      && phases != []
      && Execution.State(0, occurrences, log, visits) == LeafState(base, id, phases, 0)
      && parameterScope == base.scope
      && active == LeafActive(base, id, phases)
    }

    ghost predicate After(base: Base, id: string, script: Script)
      reads this`clock, this`occurrences, this`log, this`visits, this`parameterScope, this`active
    {
      InLeaf(base, id, script.phases) && clock == script.clock
    }

    method Proceeds() returns (ok: bool)
      modifies this`clock
      ensures ok == host.proceeds(old(clock)) && clock == old(clock) + 1
    {
      ok := host.proceeds(clock);
      clock := clock + 1;
    }

    /** An operation that uses what the leaf may read of the parameters it runs in. */
    method Performs(seen: Scope) returns (ok: bool)
      modifies this`clock
      ensures ok == host.performs(old(clock), seen) && clock == old(clock) + 1
    {
      ok := host.performs(clock, seen);
      clock := clock + 1;
    }

    /** Emits a phase of the active leaf; used directly by leaves that keep no phase guard. */
    method EmitPhase(id: string, next: Phase, ghost base: Base, ghost phases: seq<Phase>) returns (ok: bool)
      requires InLeaf(base, id, phases) && !next.Running? && !phases[|phases| - 1].Terminal()
      modifies this`clock, this`occurrences, this`active, this`log, this`visits
      ensures ok == host.accepts(old(clock)) && clock == old(clock) + 1
      ensures InLeaf(base, id, if ok then phases + [next] else phases)
    {
      assert State() == LeafState(base, id, phases, clock);
      EmittedInLeaf(host, State(), base, id, phases, next);
      hide Emitted, ActiveOk, LeafActive, EventsOf, Begun;
      ok := Emit(id, next);
    }

    /** A guarded transition: the phase table first, then the sink, then the new phase. */
    method Transition(e: StepExecution, next: Phase, ghost base: Base, ghost phases: seq<Phase>) returns (ok: bool)
      requires InLeaf(base, e.nodeId, phases) && e.phase == Current(phases) && !next.Running?
      modifies this`clock, this`occurrences, this`active, this`log, this`visits, e`phase
      ensures ok == (CanTransition(Current(phases), next) && host.accepts(old(clock)))
      ensures clock == old(clock) + (if CanTransition(Current(phases), next) then 1 else 0)
      ensures InLeaf(base, e.nodeId, if ok then phases + [next] else phases)
      ensures e.phase == if ok then Some(next) else Current(phases)
    {
      if !CanTransition(e.phase, next) { return false; }
      ok := EmitPhase(e.nodeId, next, base, phases);
      if ok { e.phase := Some(next); }
    }

    /** The failure exit of a guarded leaf. */
    method Fail(e: StepExecution, ghost base: Base, ghost phases: seq<Phase>)
      requires InLeaf(base, e.nodeId, phases) && e.phase == Current(phases) && !phases[|phases| - 1].Terminal()
      modifies this`clock, this`occurrences, this`active, this`log, this`visits, e`phase
      ensures After(base, e.nodeId, FailScript(host, old(clock), phases))
      ensures !FailScript(host, old(clock), phases).ok
    {
      var terminal := if host.canceled(clock) then Canceled else Failed;
      clock := clock + 1;
      var _ := Transition(e, terminal, base, phases);
    }

    method Finish(e: StepExecution, ghost base: Base, ghost phases: seq<Phase>) returns (ok: bool)
      requires InLeaf(base, e.nodeId, phases) && e.phase == Current(phases)
      requires !phases[|phases| - 1].Terminal() && !phases[|phases| - 1].Healing?
      modifies this`clock, this`occurrences, this`active, this`log, this`visits, e`phase
      ensures After(base, e.nodeId, FinishScript(host, old(clock), phases))
      ensures ok == FinishScript(host, old(clock), phases).ok
    {
      hide InLeaf, FailScript;
      ok := Transition(e, Succeeded, base, phases);
      if !ok { Fail(e, base, phases); }
    }

    /** RUNNING opens the leaf's occurrence and arms its phase guard. */
    method StartLeaf(e: StepExecution, ghost base: Base) returns (ok: bool)
      requires Valid() && e.phase == None
      requires base == Base(State().(clock := base.state.clock), active, parameterScope)
      modifies this`clock, this`occurrences, this`active, this`log, this`visits, e
      ensures ok == host.accepts(old(clock)) && clock == old(clock) + 1
      ensures ok ==> InLeaf(base, e.nodeId, [Running]) && e.phase == Some(Running)
      ensures ok ==> e.occurrence == Begun(base.state, e.nodeId) + 1
      ensures !ok ==> State() == base.state.(clock := clock) && active == base.active
    {
      EmittedStart(host, State(), base, e.nodeId);
      hide Emitted, StackOf, LeafActive, EventsOf, Begun;
      ok := Emit(e.nodeId, Running);
      if !ok { return; }
      var stack := StackOf(active, e.nodeId);
      e.occurrence := stack[|stack| - 1];
      e.phase := Some(Running);
    }

    /** The deferred release at the end of every leaf run. */
    method ReleaseLeaf(id: string, occurrence: nat, ghost base: Base, ghost phases: seq<Phase>)
      requires InLeaf(base, id, phases) && occurrence == Begun(base.state, id) + 1
      modifies this`active
      ensures active == base.active && Valid()
    {
      ReleasePushed(base.active, base.state, id);
      ReleaseOccurrence(id, occurrence);
      LaterOk(base.active, base.state, State());
    }

    method ApplyAction(e: StepExecution, seen: Scope, ghost base: Base, ghost phases: seq<Phase>) returns (ok: bool)
      requires InLeaf(base, e.nodeId, phases) && e.phase == Current(phases)
      requires phases == [Running] || phases == [Running, Healing]
      modifies this`clock, this`occurrences, this`active, this`log, this`visits, e`phase
      ensures After(base, e.nodeId, ApplyScript(host, old(clock), phases, seen))
      ensures ok == ApplyScript(host, old(clock), phases, seen).ok
    {
      hide InLeaf, FailScript, FinishScript;
      ok := Transition(e, Transitioning, base, phases);
      if !ok {
        Fail(e, base, phases);
        return;
      }
      ok := Performs(seen);
      if !ok {
        Fail(e, base, phases + [Transitioning]);
        return;
      }
      ok := Finish(e, base, phases + [Transitioning]);
    }

    /** The body of an action step, from variable expansion to its terminal phase. */
    method StepBody(e: StepExecution, action: ActionKind, optional: bool, seen: Scope, ghost base: Base) returns (ok: bool)
      requires InLeaf(base, e.nodeId, [Running]) && e.phase == Some(Running)
      modifies this`clock, this`occurrences, this`active, this`log, this`visits, e`phase
      ensures After(base, e.nodeId, ActionScript(host, old(clock), action, optional, seen))
      ensures ok == ActionScript(host, old(clock), action, optional, seen).ok
    {
      hide InLeaf, FailScript, FinishScript, ApplyScript;
      if Interpolates(action) {
        ok := Performs(seen);
        if !ok {
          Fail(e, base, [Running]);
          return;
        }
      }
      if action.Navigate? || action.Press? {
        ok := Performs(seen);
        if !ok {
          Fail(e, base, [Running]);
          return;
        }
        ok := Finish(e, base, [Running]);
        return;
      }
      var location := host.locates(clock);
      clock := clock + 1;
      if location.NotFound? {
        if optional {
          ok := Finish(e, base, [Running]);
          return;
        }
        if !host.healing {
          Fail(e, base, [Running]);
          return false;
        }
        ok := Transition(e, Healing, base, [Running]);
        if !ok {
          Fail(e, base, [Running]);
          return;
        }
        assert [Running] + [Healing] == [Running, Healing];
        ok := Proceeds();
        if !ok {
          Fail(e, base, [Running, Healing]);
          return;
        }
        ok := ApplyAction(e, seen, base, [Running, Healing]);
      } else if location.Broken? {
        Fail(e, base, [Running]);
        ok := false;
      } else {
        ok := ApplyAction(e, seen, base, [Running]);
      }
    }

    /** The body of a validation, or of a validation group: one guarded check. */
    method CheckBody(e: StepExecution, seen: Scope, ghost base: Base) returns (ok: bool)
      requires InLeaf(base, e.nodeId, [Running]) && e.phase == Some(Running)
      modifies this`clock, this`occurrences, this`active, this`log, this`visits, e`phase
      ensures After(base, e.nodeId, CheckScript(host, old(clock), seen))
      ensures ok == CheckScript(host, old(clock), seen).ok
    {
      hide InLeaf, FailScript, FinishScript;
      ok := Transition(e, Validating, base, [Running]);
      if !ok {
        Fail(e, base, [Running]);
        return;
      }
      assert [Running] + [Validating] == [Running, Validating];
      ok := Performs(seen);
      if !ok {
        Fail(e, base, [Running, Validating]);
        return;
      }
      ok := Finish(e, base, [Running, Validating]);
    }

    /** Waits keep no phase guard: a refused SUCCEEDED is followed by nothing. */
    method WaitBody(id: string, ghost base: Base) returns (ok: bool)
      requires InLeaf(base, id, [Running])
      modifies this`clock, this`occurrences, this`active, this`log, this`visits
      ensures After(base, id, WaitScript(host, old(clock)))
      ensures ok == WaitScript(host, old(clock)).ok
    {
      ok := Proceeds();
      if !ok {
        EmitTerminal(id, base);
        return;
      }
      ok := EmitPhase(id, Succeeded, base, [Running]);
      assert [Running] + [Succeeded] == [Running, Succeeded];
    }

    method EmitTerminal(id: string, ghost base: Base)
      requires InLeaf(base, id, [Running])
      modifies this`clock, this`occurrences, this`active, this`log, this`visits
      ensures After(base, id, FailScript(host, old(clock), [Running]))
      ensures !FailScript(host, old(clock), [Running]).ok
    {
      var terminal := if host.canceled(clock) then Canceled else Failed;
      clock := clock + 1;
      var _ := EmitPhase(id, terminal, base, [Running]);
    }

    method LeafBody(e: StepExecution, leaf: Leaf, seen: Scope, ghost base: Base) returns (ok: bool)
      requires InLeaf(base, e.nodeId, [Running]) && e.phase == Some(Running)
      modifies this`clock, this`occurrences, this`active, this`log, this`visits, e`phase
      ensures After(base, e.nodeId, BodyScript(host, old(clock), leaf, seen))
      ensures ok == BodyScript(host, old(clock), leaf, seen).ok
    {
      hide After, InLeaf, ActionScript, WaitScript, CheckScript;
      match leaf {
        case ActionLeaf(action, _, optional) => ok := StepBody(e, action, optional, seen, base);
        case WaitLeaf(_, _, _) => ok := WaitBody(e.nodeId, base);
        case ValidationLeaf(_, _) => ok := CheckBody(e, seen, base);
        case GroupLeaf(_, _) => ok := CheckBody(e, seen, base);
      }
    }

    /** What a finished leaf leaves behind is what its meaning says. */
    lemma LeafResult(base: Base, id: string, leaf: Leaf)
      requires After(base, id, LeafScript(host, base.state.clock, leaf, base.scope))
      ensures State() == ExecLeaf(host, base.state, base.scope, id, leaf).0
      ensures LeafScript(host, base.state.clock, leaf, base.scope).ok == ExecLeaf(host, base.state, base.scope, id, leaf).1
      ensures parameterScope == base.scope
    {
      hide LeafScript;
    }

    /** One leaf run, from pacing to the deferred release. */
    method RunLeaf(id: string, leaf: Leaf) returns (ok: bool)
      requires Valid()
      modifies this
      ensures (State(), ok) == ExecLeaf(host, old(State()), old(parameterScope), id, leaf)
      ensures active == old(active) && parameterScope == old(parameterScope) && Valid()
    {
      ghost var base := Base(State(), active, parameterScope);
      ghost var script := LeafScript(host, clock, leaf, parameterScope);
      hide InLeaf, FailScript, BodyScript, Readable;
      ok := Proceeds();
      if !ok { return; }
      var e := new StepExecution(id);
      ok := StartLeaf(e, base);
      if !ok { return; }
      ok := host.opens(clock, leaf);
      clock := clock + 1;
      if !ok {
        if leaf.WaitLeaf? { EmitTerminal(id, base); } else { Fail(e, base, [Running]); }
      } else {
        ok := LeafBody(e, leaf, Readable(leaf, parameterScope), base);
        var completed := Proceeds();
        ok := ok && completed;
      }
      assert After(base, id, script) && ok == script.ok;
      LeafResult(base, id, leaf);
      ReleaseLeaf(id, e.occurrence, base, script.phases);
    }

    // ----- containers -----

    method BeginOccurrence(id: string) returns (ok: bool, occurrence: nat)
      requires Valid()
      modifies this`clock, this`occurrences, this`active, this`log, this`visits
      ensures Valid() && (State(), ok) == Begin(host, old(State()), parameterScope, id)
      ensures ok ==> active == Pushed(old(active), id, occurrence) && occurrence == Begun(old(State()), id) + 1
      ensures !ok ==> active == old(active)
    {
      occurrence := 0;
      ReleasePushed(active, State(), id);
      ok := Emit(id, Running);
      if ok {
        PushedOk(old(active), old(State()), State(), id);
        hide ActiveOk, Pushed, StackOf;
        var stack := StackOf(active, id);
        occurrence := stack[|stack| - 1];
      }
    }

    /** The terminal event of a container, and the deferred release of its occurrence. */
    method EndOccurrence(id: string, occurrence: nat, succeeded: bool, ghost outer: Stacks, ghost begin: State)
      returns (ok: bool)
      requires Valid() && active == Pushed(outer, id, occurrence)
      requires ActiveOk(outer, begin) && occurrence == Begun(begin, id) + 1
      modifies this`clock, this`occurrences, this`active, this`log, this`visits
      ensures (State(), ok) == End(host, old(State()), id, occurrence, succeeded)
      ensures active == outer && Valid()
    {
      ReleasePushed(outer, begin, id);
      PopOk(outer, begin, State(), id, occurrence);
      ghost var now := State();
      hide ActiveOk, Released, Pushed, StackOf, Emitted;
      if succeeded {
        EmittedAtEnd(host, State(), outer, begin, parameterScope, id, Succeeded);
        ok := Emit(id, Succeeded);
      } else {
        var terminal := if host.canceled(clock) then Canceled else Failed;
        clock := clock + 1;
        EmittedAtEnd(host, State(), outer, begin, parameterScope, id, terminal);
        var _ := Emit(id, terminal);
        ok := false;
      }
      ReleaseOccurrence(id, occurrence);
      SameCountsOk(outer, now, State());
    }

    /** Runs a tree: the meaning `Exec` gives it, with scopes and active occurrences restored. */
    method Run(node: Node) returns (ok: bool)
      requires Valid()
      modifies this
      ensures (State(), ok) == Exec(host, old(State()), old(parameterScope), node)
      ensures active == old(active) && parameterScope == old(parameterScope) && Valid()
      decreases node, 0
    {
      match node {
        case LeafNode(id, leaf) =>
          ok := RunLeaf(id, leaf);
        case RepeatNode(id, times, children) =>
          if times < 0 { return false; }
          ok := RunRepeat(id, times, children);
        case WorkflowNode(id, steps, owned) =>
          ok := RunWorkflow(id, steps, owned);
        case CallNode(id, target, values, constraints) =>
          ghost var before, begin := active, State();
          hide ActiveOk, Pushed, End;
          var begun, occurrence := BeginOccurrence(id);
          if !begun { return false; }
          ghost var begunAt := State();
          if BindingsHold(values, constraints) {
            var previous := parameterScope;
            parameterScope := CallScope(values, previous);
            ok := Run(target);
            parameterScope := previous;
          } else {
            ok := false;
          }
          ok := EndOccurrence(id, occurrence, ok, before, begin);
      }
    }

    method RunRepeat(id: string, times: nat, children: seq<Node>) returns (ok: bool)
      requires Valid()
      modifies this
      ensures (State(), ok) == Exec(host, old(State()), old(parameterScope), RepeatNode(id, times, children))
      ensures active == old(active) && parameterScope == old(parameterScope) && Valid()
      decreases children, 2
    {
      ghost var before, begin := active, State();
      hide ActiveOk, Pushed, End, ExecAll;
      var begun, occurrence := BeginOccurrence(id);
      if !begun { return false; }
      ghost var begunAt, inner := State(), active;
      ok := true;
      var i := 0;
      while i < times && ok
        invariant 0 <= i <= times
        invariant Valid() && active == inner && parameterScope == old(parameterScope)
        invariant ok ==>
          ExecTimes(host, begunAt, parameterScope, children, times)
            == ExecTimes(host, State(), parameterScope, children, times - i)
        invariant !ok ==> ExecTimes(host, begunAt, parameterScope, children, times) == (State(), false)
        decreases times - i
      {
        ok := RunAll(children);
        i := i + 1;
      }
      assert (State(), ok) == ExecTimes(host, begunAt, parameterScope, children, times);
      ok := EndOccurrence(id, occurrence, ok, before, begin);
    }

    method RunWorkflow(id: string, steps: seq<Node>, owned: Option<Scope>) returns (ok: bool)
      requires Valid()
      modifies this
      ensures (State(), ok) == Exec(host, old(State()), old(parameterScope), WorkflowNode(id, steps, owned))
      ensures active == old(active) && parameterScope == old(parameterScope) && Valid()
      decreases steps, 2
    {
      ghost var before, begin := active, State();
      hide ActiveOk, Pushed, End, ExecAll;
      var previous := parameterScope;
      if owned.Some? { parameterScope := owned.value; }
      var begun, occurrence := BeginOccurrence(id);
      if !begun {
        parameterScope := previous;
        return false;
      }
      ok := RunAll(steps);
      ok := EndOccurrence(id, occurrence, ok, before, begin);
      parameterScope := previous;
    }

    method RunAll(nodes: seq<Node>) returns (ok: bool)
      requires Valid()
      modifies this
      ensures (State(), ok) == ExecAll(host, old(State()), old(parameterScope), nodes)
      ensures active == old(active) && parameterScope == old(parameterScope) && Valid()
      decreases nodes, 1
    {
      hide ActiveOk, Exec;
      for i := 0 to |nodes|
        invariant Valid() && active == old(active) && parameterScope == old(parameterScope)
        invariant ExecAll(host, old(State()), parameterScope, nodes)
               == ExecAll(host, State(), parameterScope, nodes[i..])
      {
        assert nodes[i..][1..] == nodes[i + 1..];
        ok := Run(nodes[i]);
        if !ok { return; }
      }
      ok := true;
    }
  }

  lemma {:induction false} RemoveLastAt(stack: seq<nat>, i: nat, o: nat)
    requires i < |stack| && stack[i] == o && o !in stack[i + 1..]
    ensures o in stack && RemoveLast(stack, o) == stack[..i] + stack[i + 1..]
  {
    var init, last := stack[..|stack| - 1], stack[|stack| - 1];
    if i < |stack| - 1 {
      assert last in stack[i + 1..];
      assert init[i + 1..] == stack[i + 1..][..|stack| - i - 2];
      RemoveLastAt(init, i, o);
      assert init[..i] + init[i + 1..] + [last] == stack[..i] + stack[i + 1..];
    } else {
      assert stack[i + 1..] == [];
    }
  }

  /**
   One execution of a program on a new runtime: its outcome is the meaning of
   the tree, no occurrence stays active, and the log is safe.
   */
  method RunProgram(host: Host, root: Node) returns (rt: Runtime, ok: bool)
    ensures fresh(rt) && (rt.State(), ok) == Exec(host, INITIAL, map[], root)
    ensures rt.active == map[] && EventLog.SafeLog(rt.log, rt.State())
    ensures RunOutcomes.Telling(rt.log, 0, ok)
  {
    rt := new Runtime(host);
    EventLog.RunIsSafe(host, map[], root);
    RunOutcomes.RunTells(host, INITIAL, map[], root);
    ok := rt.Run(root);
  }
}

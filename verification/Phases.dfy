/**
 The phase machine of a node occurrence (domain/node/runtime.go) and the phases
 a leaf goes through for every behaviour of its host (domain/node/step.go,
 domain/node/composite.go, domain/node/validation.go).
 */
module Phases {
  import opened Wrappers
  import opened Parameters
  import opened Plan

  datatype Phase = Running | Healing | Transitioning | Validating | Succeeded | Failed | Canceled
  {
    predicate Terminal() {
      Succeeded? || Failed? || Canceled?
    }
  }

  /** The transition table; `None` is the phase before the first event. */
  predicate CanTransition(from: Option<Phase>, to: Phase) {
    match from
    case None => to.Running?
    case Some(Running) => !to.Running?
    case Some(Healing) => to.Transitioning? || to.Failed? || to.Canceled?
    case Some(Transitioning) => to.Validating? || to.Terminal()
    case Some(Validating) => to.Terminal()
    case Some(_) => false
  }

  /** The phase an occurrence with this history is in. */
  function Current(phases: seq<Phase>): Option<Phase> {
    if phases == [] then None else Some(phases[|phases| - 1])
  }

  /** A sequence of phases an occurrence may go through: every step follows the table. */
  ghost predicate Legal(phases: seq<Phase>) {
    phases == [] ||
    (Legal(phases[..|phases| - 1]) && CanTransition(Current(phases[..|phases| - 1]), phases[|phases| - 1]))
  }

  lemma LegalAppend(phases: seq<Phase>, next: Phase)
    requires Legal(phases) && CanTransition(Current(phases), next)
    ensures Legal(phases + [next])
  {
    assert (phases + [next])[..|phases|] == phases;
  }

  /** A legal history starts RUNNING, never runs twice, and ends at its first terminal phase. */
  lemma {:induction false} LegalMeaning(phases: seq<Phase>, i: nat)
    requires Legal(phases) && i < |phases|
    ensures phases[i].Running? <==> i == 0
    ensures phases[i].Terminal() ==> i == |phases| - 1
  {
    var init := phases[..|phases| - 1];
    if i < |init| {
      LegalMeaning(init, i);
      LegalMeaning(init, |init| - 1);
    }
  }

  /** How far along a phase is. */
  function Rank(phase: Phase): nat {
    match phase
    case Running => 0
    case Healing => 1
    case Transitioning => 2
    case Validating => 3
    case _ => 4
  }

  /** From one phase to the next it only goes on; what was being healed must be acted on or given up. */
  predicate GoesOn(from: Phase, to: Phase) {
    Rank(from) < Rank(to) && (from.Healing? ==> to.Transitioning? || to.Failed? || to.Canceled?)
  }

  /** The table read as a whole: the legal histories are those that start RUNNING and go on from phase to phase. */
  lemma {:induction false} LegalExactly(phases: seq<Phase>)
    requires phases != []
    ensures Legal(phases) <==> phases[0].Running? && forall i | 0 < i < |phases| :: GoesOn(phases[i - 1], phases[i])
  {
    var init := phases[..|phases| - 1];
    if init != [] {
      LegalExactly(init);
      assert forall i | 0 <= i < |init| :: init[i] == phases[i];
      LegalStarts(init);
    }
  }

  lemma {:induction false} LegalStarts(phases: seq<Phase>)
    requires phases != []
    ensures Legal(phases) ==> phases[0].Running?
  {
    if |phases| > 1 { LegalStarts(phases[..|phases| - 1]); }
  }

  lemma LegalPrefixes()
    ensures Legal([Running]) && Legal([Running, Healing])
    ensures Legal([Running, Validating]) && Legal([Running, Succeeded])
  {
    LegalAppend([], Running);
    LegalAppend([Running], Healing);
    LegalAppend([Running], Validating);
    LegalAppend([Running], Succeeded);
    assert [] + [Running] == [Running];
  }

  // ----- the host -----

  datatype Location = Found | NotFound | Broken

  /**
   Everything the runtime cannot decide for itself: one answer for every
   consultation, told apart by the tick at which it is asked for. Quantifying
   over all hosts covers every driver, healer, sink and cancellation behaviour.
   */
  datatype Host = Host(
    healing: bool,                 // whether a healer is configured
    accepts: nat -> bool,          // the sink records the event
    opens: (nat, Leaf) -> bool,    // the lifecycle of a leaf opens; may depend on all that the leaf does
    proceeds: nat -> bool,         // a pacing, lifecycle, waiting or healing operation succeeds
    performs: (nat, Scope) -> bool, // expanding the texts of a leaf, acting with them or checking against them succeeds
    locates: nat -> Location,      // how an element lookup ends
    canceled: nat -> bool)         // whether the context is cancelled when a failure is reported

  // ----- leaves -----

  /** The exact element a node acts on. */
  type Spec = TargetRef

  datatype GroupBranch = GroupBranch(id: string, members: seq<GroupMember>)
  datatype GroupMember = GroupMember(id: string, target: Spec)

  datatype Leaf =
    | ActionLeaf(action: ActionKind, target: Option<Spec>, optional: bool)
    | WaitLeaf(wait: WaitKind, awaited: Option<Spec>, durationMs: int)
    | ValidationLeaf(assertion: Spec, maxWaitMs: int)
    | GroupLeaf(branches: seq<GroupBranch>, groupWaitMs: int)

  predicate Interpolates(action: ActionKind) {
    action.Navigate? || action.Input? || action.Select? || action.Press?
  }

  /** Whether the texts of a leaf may name parameters. */
  predicate ReadsScope(leaf: Leaf) {
    match leaf
    case ActionLeaf(action, _, _) => Interpolates(action)
    case WaitLeaf(_, _, _) => false
    case ValidationLeaf(_, _) => true
    case GroupLeaf(_, _) => true
  }

  /** What a leaf can make of the parameters it runs in. */
  function Readable(leaf: Leaf, scope: Scope): Scope {
    if ReadsScope(leaf) then scope else map[]
  }

  /** Accepted phases of one leaf run, whether it succeeded, and the tick it ended at. */
  datatype Script = Script(phases: seq<Phase>, ok: bool, clock: nat)

  /** The failure exit: one attempt to record a terminal phase, accepted or not. */
  function FailScript(h: Host, t: nat, phases: seq<Phase>): Script {
    var terminal := if h.canceled(t) then Canceled else Failed;
    Script(if h.accepts(t + 1) then phases + [terminal] else phases, false, t + 2)
  }

  /** The success exit of a guarded leaf; a refused SUCCEEDED becomes a failure. */
  function FinishScript(h: Host, t: nat, phases: seq<Phase>): Script {
    if h.accepts(t) then Script(phases + [Succeeded], true, t + 1) else FailScript(h, t + 1, phases)
  }

  /** Closing the leaf lifecycle can still turn a success into an error. */
  function CompleteScript(h: Host, s: Script): Script {
    s.(ok := s.ok && h.proceeds(s.clock), clock := s.clock + 1)
  }

  /** Applying the action to a located element. */
  function ApplyScript(h: Host, t: nat, phases: seq<Phase>, seen: Scope): Script {
    if !h.accepts(t) then FailScript(h, t + 1, phases)
    else if !h.performs(t + 1, seen) then FailScript(h, t + 2, phases + [Transitioning])
    else FinishScript(h, t + 2, phases + [Transitioning])
  }

  /** Recovery of a lost element by the healer. */
  function HealScript(h: Host, t: nat, seen: Scope): Script {
    if !h.accepts(t) then FailScript(h, t + 1, [Running])
    else if !h.proceeds(t + 1) then FailScript(h, t + 2, [Running, Healing])
    else ApplyScript(h, t + 2, [Running, Healing], seen)
  }

  function LocateScript(h: Host, t: nat, optional: bool, seen: Scope): Script {
    match h.locates(t)
    case Broken => FailScript(h, t + 1, [Running])
    case Found => ApplyScript(h, t + 1, [Running], seen)
    case NotFound =>
      if optional then FinishScript(h, t + 1, [Running])
      else if !h.healing then FailScript(h, t + 1, [Running])
      else HealScript(h, t + 1, seen)
  }

  function PageScript(h: Host, t: nat, seen: Scope): Script {
    if !h.performs(t, seen) then FailScript(h, t + 1, [Running]) else FinishScript(h, t + 1, [Running])
  }

  function ActionScript(h: Host, t: nat, action: ActionKind, optional: bool, seen: Scope): Script {
    if Interpolates(action) && !h.performs(t, seen) then FailScript(h, t + 1, [Running]) else
    var t' := if Interpolates(action) then t + 1 else t;
    if action.Navigate? || action.Press? then PageScript(h, t', seen) else LocateScript(h, t', optional, seen)
  }

  /** A wait emits SUCCEEDED unguarded: when that is refused no terminal phase follows. */
  function WaitScript(h: Host, t: nat): Script {
    if !h.proceeds(t) then FailScript(h, t + 1, [Running])
    else if h.accepts(t + 1) then Script([Running, Succeeded], true, t + 2)
    else Script([Running], false, t + 2)
  }

  function CheckScript(h: Host, t: nat, seen: Scope): Script {
    if !h.accepts(t) then FailScript(h, t + 1, [Running])
    else if !h.performs(t + 1, seen) then FailScript(h, t + 2, [Running, Validating])
    else FinishScript(h, t + 2, [Running, Validating])
  }

  function BodyScript(h: Host, t: nat, leaf: Leaf, seen: Scope): Script {
    match leaf
    case ActionLeaf(action, _, optional) => ActionScript(h, t, action, optional, seen)
    case WaitLeaf(_, _, _) => WaitScript(h, t)
    case ValidationLeaf(_, _) => CheckScript(h, t, seen)
    case GroupLeaf(_, _) => CheckScript(h, t, seen)
  }

  /**
   One run of a leaf: pacing and the RUNNING event may fail before anything is
   recorded; the lifecycle may fail to begin; otherwise the body runs and the
   lifecycle is completed.
   */
  function LeafScript(h: Host, t: nat, leaf: Leaf, scope: Scope): Script {
    if !h.proceeds(t) then Script([], false, t + 1)
    else if !h.accepts(t + 1) then Script([], false, t + 2)
    else if !h.opens(t + 2, leaf) then FailScript(h, t + 3, [Running])
    else CompleteScript(h, BodyScript(h, t + 3, leaf, Readable(leaf, scope)))
  }

  // ----- every leaf run is legal -----

  ghost predicate LegalScript(s: Script) {
    s.phases != [] && Legal(s.phases)
  }

  lemma FailIsLegal(h: Host, t: nat, phases: seq<Phase>)
    requires phases != [] && Legal(phases) && !phases[|phases| - 1].Terminal()
    ensures LegalScript(FailScript(h, t, phases))
  {
    LegalAppend(phases, if h.canceled(t) then Canceled else Failed);
  }

  lemma FinishIsLegal(h: Host, t: nat, phases: seq<Phase>)
    requires phases != [] && Legal(phases) && !phases[|phases| - 1].Terminal() && !phases[|phases| - 1].Healing?
    ensures LegalScript(FinishScript(h, t, phases))
  {
    LegalAppend(phases, Succeeded);
    FailIsLegal(h, t + 1, phases);
  }

  lemma ApplyIsLegal(h: Host, t: nat, phases: seq<Phase>, seen: Scope)
    requires phases == [Running] || phases == [Running, Healing]
    ensures LegalScript(ApplyScript(h, t, phases, seen))
  {
    LegalPrefixes();
    LegalAppend(phases, Transitioning);
    FailIsLegal(h, t + 1, phases);
    FailIsLegal(h, t + 2, phases + [Transitioning]);
    FinishIsLegal(h, t + 2, phases + [Transitioning]);
  }

  lemma HealIsLegal(h: Host, t: nat, seen: Scope)
    ensures LegalScript(HealScript(h, t, seen))
  {
    LegalPrefixes();
    FailIsLegal(h, t + 1, [Running]);
    FailIsLegal(h, t + 2, [Running, Healing]);
    ApplyIsLegal(h, t + 2, [Running, Healing], seen);
    hide LegalScript, FailScript, ApplyScript;
  }

  lemma LocateIsLegal(h: Host, t: nat, optional: bool, seen: Scope)
    ensures LegalScript(LocateScript(h, t, optional, seen))
  {
    LegalPrefixes();
    FailIsLegal(h, t + 1, [Running]);
    FinishIsLegal(h, t + 1, [Running]);
    ApplyIsLegal(h, t + 1, [Running], seen);
    HealIsLegal(h, t + 1, seen);
    hide LegalScript, FailScript, FinishScript, ApplyScript, HealScript;
  }

  lemma ActionIsLegal(h: Host, t: nat, action: ActionKind, optional: bool, seen: Scope)
    ensures LegalScript(ActionScript(h, t, action, optional, seen))
  {
    LegalPrefixes();
    var t' := if Interpolates(action) then t + 1 else t;
    FailIsLegal(h, t + 1, [Running]);
    FailIsLegal(h, t' + 1, [Running]);
    FinishIsLegal(h, t' + 1, [Running]);
    LocateIsLegal(h, t', optional, seen);
    hide LegalScript, FailScript, FinishScript, LocateScript;
  }

  lemma WaitIsLegal(h: Host, t: nat)
    ensures LegalScript(WaitScript(h, t))
  {
    LegalPrefixes();
    FailIsLegal(h, t + 1, [Running]);
    hide Legal, FailScript;
  }

  lemma CheckIsLegal(h: Host, t: nat, seen: Scope)
    ensures LegalScript(CheckScript(h, t, seen))
  {
    LegalPrefixes();
    FailIsLegal(h, t + 1, [Running]);
    FailIsLegal(h, t + 2, [Running, Validating]);
    FinishIsLegal(h, t + 2, [Running, Validating]);
    hide LegalScript, FailScript, FinishScript;
  }

  lemma BodyIsLegal(h: Host, t: nat, leaf: Leaf, seen: Scope)
    ensures LegalScript(BodyScript(h, t, leaf, seen))
  {
    hide LegalScript, ActionScript, WaitScript, CheckScript;
    match leaf {
      case ActionLeaf(action, _, optional) => ActionIsLegal(h, t, action, optional, seen);
      case WaitLeaf(_, _, _) => WaitIsLegal(h, t);
      case ValidationLeaf(_, _) => CheckIsLegal(h, t, seen);
      case GroupLeaf(_, _) => CheckIsLegal(h, t, seen);
    }
  }

  /** Whatever the host does, a leaf that records anything records a legal history. */
  lemma LeafIsLegal(h: Host, t: nat, leaf: Leaf, scope: Scope)
    ensures Legal(LeafScript(h, t, leaf, scope).phases)
    ensures LeafScript(h, t, leaf, scope).ok ==> LeafScript(h, t, leaf, scope).phases != []
  {
    LegalPrefixes();
    FailIsLegal(h, t + 3, [Running]);
    BodyIsLegal(h, t + 3, leaf, Readable(leaf, scope));
    hide FailScript, BodyScript;
  }
}

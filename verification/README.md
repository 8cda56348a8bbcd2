# Healix core: verified models

Dafny models of the deterministic heart of Healix core, an engine that seals,
compiles and runs browser automation plans, heals lost selectors and records how
every entry ended. Each module follows one component of the Go code and proves
what that component is for.

* **Seal, budget, compile, run.** `Plan`, `Snapshots`, `Sealing`, `Bindings`,
  `FrozenScopes`, `PlanChecks`, `CallChecks`, `Ancestry`, `References`, `Expansions`,
  `Budget`, `Sizes`, `Trees`, `Compiler`, `Compilation`, `Phases`, `LeafCourses`,
  `Execution`, `EventLog`, `RunOutcomes`, `Runtimes`, `Meaning`, `Pipeline`,
  `Itineraries`, `Leaks`. A snapshot is a graph of workflow versions with
  repeats, validation groups and references, a tree of call sites with frozen
  parameter scopes, and an environment. Sealing checks it, the budget prices its
  full expansion, the compiler turns every entry into a tree, and the runtime
  interprets the tree with an event log. `Meaning` interprets the plan itself,
  resolving the bindings of every call as it goes; `Pipeline` proves that compiled
  programs do the same, and `Leaks` proves under just which conditions. `Expansions`
  writes a plan out line by line: `Budget` prices it and `Itineraries` follows it.
  `LeafCourses` lists what a leaf asks of its host, one demand after the other. A `Host`
  answers each consultation by its tick, so quantifying over hosts covers every
  behaviour of driver, healer, sink and cancellation. What a host makes of a leaf
  whose texts may name parameters can depend on all the parameters the leaf is
  shown, and whether a leaf opens on everything the leaf does. `LeakingPlan` and
  `LongPlan` are two concrete plans on which the code does not do what one might
  expect.
* **Heal streaks.** `HealStreaks`, `HealGovernance`, `HealEffects`: which observations count
  towards publishing a healed selector, over whole runs with replays, rejections
  and refusals.
* **Completion, abort, scheduling.** `Statuses`, `Digests`, `Completion`,
  `Protocol`, `Services`, `Scheduling`, `SchedulingRuns`, `SchedulingVerdicts`: pure decisions, request
  digests, a store that keeps the port contract, all interleavings of crashing and
  retrying workers, and serial scheduling runs.
* **Relocation.** `Distances`, `Fingerprints`, `Relocation`, `RelocationVerdicts`: the two in-place dynamic
  programs, the canonical key of a fingerprint, and the scoring of candidates in
  real numbers.
* **Canonical forms and evidence.** `Text`, `Codec`, `Decimal`, `DecimalLaws`,
  `Parameters`, `Evidence`, with `Wrappers` and `Indexes` as shared helpers.

Strings are byte strings, one character per byte, and white space is ASCII white
space; in `Distances`, `Fingerprints`, `Relocation` and `RelocationVerdicts` a character is a code point.

## Where the code and its descriptions differ

* The reference search skips finished versions, so it does not bound the longest
  chain of references by 32 (domain/execution/validation.go:663-682). The compiler
  does (application/engine/compiler.go:226). `LongPlan.LongChainIsAccepted` names
  such a plan, and `Compilation.CompilesExactly` states the resulting condition.
* An empty streak accepts a failed or bandless observation of a current version
  and returns a record its own validation refuses
  (domain/automation/healing.go:307-327 against 357-366).
  `HealStreaks.ObserveKeepsSound` gives the exact family.
* The check of parent chains for cycles never rejects anything that the canonical
  paths would not reject (`CallChecks.CallsAreRooted`).
* Call-site scopes follow the bindings of the sealed call sites; the code never
  compares them with the bindings of the plan step
  (domain/execution/instance_snapshot.go:519-553).
* A caller parameter whose name starts with `env.` is taken for an environment
  variable by the calls below it (domain/node/composite.go:306-310), and a step
  there can then go on where its plan leaves the variable undefined.
  `LeakingPlan.LeakingPlanIsNotFollowed` names such a plan;
  `Leaks.FollowsPlanExactly` and `Leaks.ShowsPlanExactly` state exactly when the
  course and the visible parameters are those of the plan.
* Bindings that pass the check of a plan can still be refused when a snapshot is
  sealed: a required selection may be bound to an empty one
  (domain/execution/validation.go:159-165). `Bindings.CheckedBindingsFit` states
  that this is the only way.
* A clone of an element with a negative sibling index cannot score one unless the
  index carries no weight (domain/heal/scorer.go:371-373).
* The canonical key of a fingerprint omits its framework (domain/heal/order.go:37-64),
  so candidates that differ in nothing else keep the order of the page
  (`Relocation.TiesKeepPageOrder`).

## Model

| member | source | states |
|---|---|---|
| `Pipeline.ProgramMeansPlan` | application/engine/compiler.go:225-421 | Compiler correctness: where every workflow that reads parameters is shown its own, running the compiled program of an entry visits, for every host, the same plan steps at the same call sites as interpreting the plan directly and ends with the same success or first failure; where no call leaks, the visible parameters are the same too |
| `Leaks.FollowsPlanExactly` | application/engine/compiler.go:225-421 | The condition is exact: the programs go the way of their plan under every host if and only if every call site whose workflow reads parameters is shown just its frozen values and the environment |
| `Leaks.ShowsPlanExactly` | domain/node/composite.go:301-315 | Scope correctness, exactly: the programs show every step the parameters of its plan under every host if and only if no call leaks a caller parameter |
| `Leaks.SiteIsReached` | application/engine/compiler.go:383-421 | Every sealed call site runs somewhere in the compiled tree of an entry, in the scope the runtime swaps in for it |
| `Leaks.PartCanFail` | domain/node/step.go:96-112 | For every leaf of a tree that reads parameters some host fails the run at just that leaf, over the scope it is shown |
| `LeakingPlan.LeakingPlanIsNotFollowed` | domain/node/composite.go:306-310 | A concrete sealed plan whose program some host takes another way than its plan: the called workflow is shown an `env.home` that its caller declares and no environment defines |
| `Pipeline.NoLeaksExactly` | domain/node/composite.go:301-315 | No call leaks if and only if every call site is shown just its frozen values and the environment |
| `Pipeline.RunEntry` | domain/node/composite.go:184-315 | Running a compiled entry on a real runtime follows the plan under the same two conditions, keeps a safe event log that tells how the run went, and leaves no occurrence active |
| `Pipeline.SealedIsBound` | domain/execution/instance_snapshot.go:524-553 | Every binding of a sealed call resolves in its caller, with the declared defaults, to exactly the frozen values; what these are, name by name, is FrozenScopes.SealedCallIsFrozen |
| `Pipeline.PlainParametersLeakNothing` | domain/node/composite.go:301-315 | When no declared parameter name starts with `env.`, no call can leak a caller parameter as an environment variable |
| `Itineraries.ProgramTakesItinerary` | application/engine/compiler.go:225-421 | Whatever the host does, and whatever leaks: a compiled program begins the steps of its workflow written out in full (references inlined, repeat bodies as often as they are repeated), in that order, none skipped and none added, and all of them when it succeeds |
| `Itineraries.ProgramCoversPart` | domain/execution/budget.go:61-106 | What a run got through is a first part of that expansion, so the waits declared for it add up to no more than those of the whole |
| `Itineraries.RunsStayWithinBudget` | domain/execution/budget.go:17-34 | One run of every compiled program together begins at most 1 000 000 steps (workflow containers aside), whatever the hosts do; the waits declared in the expansion of a sealed plan add up to at most one day |
| `Itineraries.RunsWithinExpansion` | domain/execution/budget.go:61-106 | Nor do they begin more steps than the expansion of the plan has lines |
| `Itineraries.StepsTake` | application/engine/compiler.go:243-292 | The inductive form for any step list: a run of its tree begins a first part of the steps of its expansion |
| `Meaning.CallScopeExactly` | domain/node/composite.go:301-315 | The scope swap of a call gives its own values plus the environment if and only if nothing that merely looks like an environment variable leaks from the caller |
| `Meaning.ScopeCanLeak` | domain/node/composite.go:306-310 | A concrete caller parameter named `env.home` that does leak into a called workflow |
| `Meaning.CallLeadsTo` | application/engine/compiler.go:383-421 | A reference step leads to the one call site whose bindings give its values in the scope of the caller; the run-time constraint check passes there |
| `Meaning.StepsMean` | application/engine/compiler.go:243-292 | A compiled step list and the plan steps it came from go through the same visits and stop at the same failure, when steps that read parameters are shown their own |
| `Meaning.WorkflowMeans` | application/engine/compiler.go:225-241 | The same for a compiled workflow and the plan workflow |
| `Meaning.ReferenceMeans` | domain/node/composite.go:278-315 | The same for a compiled call and the reference step |
| `Meaning.RepeatMeans` | domain/node/composite.go:184-212 | The same for a repeat: the body is run once per turn, in order, until the first failure |
| `PlanChecks.Seal` | domain/execution/instance_snapshot.go:431-593 | Sealing accepts only snapshots in order; a rejected one is never in order, except when a limit of the reference search was really exceeded |
| `PlanChecks.ValidatePlan` | domain/execution/validation.go:263-375 | The plan half of sealing: accepted plans are resolved, acyclic from their entries, within budget and within the search limits; rejected ones cannot be, or exceed a search limit |
| `PlanChecks.ValidateDependencies` | domain/execution/validation.go:717-759 | The explicit-stack walk accepts exactly the workflows whose targets are held, whose references agree with distinct resolutions and whose bindings fit both parameter lists, and uses up just those resolutions |
| `Bindings.ValidateBindings` | domain/execution/validation.go:121-184 | The two loops accept exactly the bindings that name declared parameters, each fittingly, and leave out only those with a default |
| `Bindings.CheckedBindingsFit` | domain/execution/validation.go:121-184 | What the check guarantees: accepted bindings resolve in every caller whose values fit, and give values that fit the called workflow, except exactly where a required selection is bound to an empty one |
| `Bindings.EmptySelectionSlipsThrough` | domain/execution/validation.go:159-165 | That exception is real: each option is checked, not their number |
| `PlanChecks.ValidateAllDependencies` | domain/execution/validation.go:352-374 | All workflows together pass exactly when each does and no resolution is left without a reference step |
| `PlanChecks.ValidateNodes` | domain/execution/validation.go:307-331 | Element versions are accepted exactly when all are valid and no version id belongs to two elements |
| `FrozenScopes.ScopeIsFrozen` | domain/execution/instance_snapshot.go:524-545 | The scope computed for a call is some values exactly when every bound name has its valid literal or what the caller holds under a name that is not blank, every other declared name its default or no value, and there are no more names |
| `FrozenScopes.SealedCallIsFrozen` | domain/execution/instance_snapshot.go:511-553 | Every call of a sealed snapshot is made by a reference step of the version at its call site, runs what that step resolves to, and holds just such values, each of them accepted |
| `FrozenScopes.ChildOkExactly` | domain/execution/instance_snapshot.go:511-553 | And conversely a call that is attached in this way and holds just such fitting values passes its check |
| `FrozenScopes.PlannedBindingsFit` | domain/execution/validation.go:121-184 | The bindings every reference step of a sealed plan was written with freeze to one scope in every caller whose values fit, and it fits the called version unless a required selection is bound to an empty one |
| `PlanChecks.AcyclicIsClosed` | domain/execution/validation.go:345-356 | An acyclic graph whose references all resolve inside the plan can be ranked so that every reference leads downwards |
| `PlanChecks.TotalIgnoresRank` | domain/execution/budget.go:17-34 | The expanded price of a plan does not depend on how its versions are ranked |
| `CallChecks.ValidateCalls` | domain/execution/instance_snapshot.go:462-585 | The call-site checks accept exactly the snapshots with one canonical, rightly scoped root per entry and one child per reference step |
| `CallChecks.ResolveScope` | domain/execution/instance_snapshot.go:524-541 | Resolving the bindings of a call and adding defaults, as loops, yields the one scope that has a bound value for every bound name and the declared default for every other, or nothing when there is none |
| `CallChecks.CountCalls` | domain/execution/instance_snapshot.go:560-570 | Roots and children per edge are counted exactly |
| `CallChecks.CallsAreRooted` | domain/execution/instance_snapshot.go:465-492 | Call sites with canonical paths always have chains of parents that end at a root, so the cycle visit never decides alone |
| `Ancestry.Visit` | domain/execution/instance_snapshot.go:466-487 | The colouring visit of a parent chain succeeds exactly when the chain ends at a root |
| `Ancestry.VisitAll` | domain/execution/instance_snapshot.go:488-492 | Visiting every path succeeds exactly when all chains end at roots |
| `Ancestry.CanonicalIsRooted` | domain/execution/instance_snapshot.go:513-517 | Canonical child paths grow with every call and so cannot form a cycle |
| `Sealing.RootOfEntry` | domain/execution/instance_snapshot.go:571-573 | Pigeonhole: as many distinct roots as entries, each named by an entry, so every entry has its own root with its version and values |
| `Sealing.ReferenceIsCall` | domain/execution/instance_snapshot.go:574-585 | Every reference step of a call site leads to its one child, which satisfies the schemas checked at run time |
| `Sealing.SealedIsLinked` | application/engine/compiler.go:383-410 | A sealed snapshot provides everything the compiler looks up, so its lookup errors cannot occur |
| `Sealing.FittingValuesHold` | domain/node/composite.go:324-358 | Values accepted at sealing satisfy the constraints `resolveBindings` checks at run time |
| `Sealing.RootPathsCount` | domain/execution/instance_snapshot.go:560-566 | Distinct root paths are as many as the counted roots |
| `References.ValidateReachable` | domain/execution/validation.go:654-715 | Acceptance means no cycle is reachable through resolved references and neither size limit is exceeded; a reported cycle is genuine; a reported size limit really is exceeded; a reported depth belongs to a chain that long whose versions, but for the last, no earlier root reaches |
| `References.FreshIsLong` | domain/execution/validation.go:673-675 | Such a chain is in particular a walk longer than the limit |
| `LongPlan.LongChainIsAccepted` | domain/execution/validation.go:663-682 | A concrete graph with a chain of 34 versions that every justified verdict accepts |
| `References.SearchFrom` | domain/execution/validation.go:664-713 | One root: the enter/exit search terminates and its verdict is justified |
| `References.PushReferences` | domain/execution/validation.go:685-710 | Every reference step nested in a version is counted once and every resolved one is visited next; the edge limit fires exactly when the count passes it |
| `References.LimitsExclude` | domain/execution/validation.go:681-702 | The size limits are properties of the graph: a plan that could be accepted is never refused for its reachable versions or reference steps, in whatever order the search meets them |
| `References.EdgeTotalGrows` | domain/execution/validation.go:662-702 | Distinct versions never hold more reference steps than a list that includes them |
| `Plan.AcyclicHasNoCycle` | domain/execution/validation.go:654-715 | An accepted graph has no reachable version that reaches itself |
| `Budget.ValidateBudget` | domain/execution/budget.go:17-34 | The memoised, saturating, early-exiting evaluator accepts exactly the plans whose expansion, written out line by line, has at most 1 000 000 lines and declares at most one day of waiting; every operation stays in 64 bits |
| `Budget.TotalMeasures` | domain/execution/budget.go:17-34 | The price of a plan is the number of lines of its expansion and the sum of the waits its waits, validations, groups and group members declare; it is over the limits exactly when that is |
| `Budget.StepMeasures` | domain/execution/budget.go:61-97 | The same for one step of any kind |
| `Budget.Evaluator.WorkflowCost` | domain/execution/budget.go:44-59 | The cost of a version stands for its true price, and no version is evaluated twice |
| `Budget.Evaluator.StepsCost` | domain/execution/budget.go:61-106 | The cost of a step list stands for its true price even when the loop leaves early |
| `Budget.Evaluator.StepCost` | domain/execution/budget.go:70-97 | The cost of one step stands for its price, which Budget.StepMeasures says counts its lines and adds up their waits |
| `Budget.CappedAdd` | domain/execution/budget.go:132-137 | Capped addition is addition cut off at the cap, without overflow |
| `Budget.CappedMultiply` | domain/execution/budget.go:139-147 | Capped multiplication is multiplication cut off at the cap, without overflow |
| `Budget.MultiplyStands` | domain/execution/budget.go:118-123 | Multiplying a saturated cost keeps standing for the multiplied price |
| `Compilation.CompilePlan` | application/engine/compiler.go:125-212 | A sealed snapshot compiles exactly when every entry can; the only errors are a chain over 32 versions or an environment collision; compiled nodes stay within the budgeted executions |
| `Compilation.CompilesExactly` | application/engine/compiler.go:125-228 | Compile totality: a sealed snapshot compiles if and only if no reference chain from an entry exceeds 32 versions and no root parameter has the name of an environment variable |
| `Compilation.CompileEntries` | application/engine/compiler.go:157-210 | The entry loop with its shared node counter |
| `Compilation.CompileEntry` | application/engine/compiler.go:163-200 | One entry gets its tree, its root scope with the environment, and truthful metadata, or fails for one of the two reasons |
| `Compilation.AddEnvironment` | application/engine/compiler.go:182-199 | The overlay loop adds exactly the environment or reports exactly a collision |
| `Compiler.EntryCompiler.CompileWorkflow` | application/engine/compiler.go:225-241 | Fails with TOO DEEP exactly when its chain does not fit; otherwise yields the tree of the workflow, described and counted |
| `Compiler.EntryCompiler.CompileSteps` | application/engine/compiler.go:243-292 | The same for a step list |
| `Compiler.EntryCompiler.CompileStep` | application/engine/compiler.go:245-290 | The same for one step of any kind |
| `Compiler.EntryCompiler.CompileWorkflowCall` | application/engine/compiler.go:383-421 | The same for a reference step |
| `Compiler.EntryCompiler.CompileValidationGroup` | application/engine/compiler.go:315-346 | A group is compiled member by member, each counted and described |
| `Compiler.EntryCompiler.Spec` | application/engine/compiler.go:444-471 | The element cache gives back the specification of just the element asked for |
| `Compiler.EntryCompiler.Describe` | application/engine/compiler.go:252-256 | Metadata is extended by one truthful entry and none is overwritten with another meaning |
| `Trees.TruthfulStep` | application/engine/compiler.go:252-256 | Describing a step keeps every identifier mapped to the one call site and step it was made from |
| `Trees.TruthfulWorkflow` | application/engine/compiler.go:233-235 | Describing a workflow container keeps the same |
| `Sizes.ChainExceeds` | application/engine/compiler.go:226-228 | A chain is longer than n exactly when a walk of n+1 versions starts at an entry |
| `Sizes.WalkWithinChain` | application/engine/compiler.go:226-228 | No walk of references is longer than the chain of its first version |
| `Sizes.ChainIsWalked` | application/engine/compiler.go:226-228 | Some walk is exactly as long |
| `Sizes.CountWithinPrice` | application/engine/compiler.go:246-249 | The compiled nodes of a step list never exceed its priced executions |
| `Codec.StepRuntimeIdInjective` | application/engine/compiler.go:493-497 | Distinct (call path, step) pairs have distinct runtime identifiers |
| `Codec.WorkflowRuntimeIdInjective` | application/engine/compiler.go:233-233 | Distinct call paths have distinct container identifiers |
| `Codec.StepIsNotWorkflow` | application/engine/compiler.go:493-497 | A step never shares an identifier with a workflow container |
| `Codec.ComponentsInjective` | application/engine/compiler.go:497-497 | Length-prefixed component lists are uniquely decodable |
| `Codec.ValidateInvocationPath` | domain/execution/coordinate.go:84-123 | The scanning loop accepts exactly the well-formed paths |
| `Codec.ScanSegment` | domain/execution/coordinate.go:96-116 | One turn of the loop finds exactly the end of the segment |
| `Codec.ChildReparses` | domain/execution/coordinate.go:44-53 | On a valid parent, a child path fails only for an invalid step identity or an over-long result |
| `Codec.ChildInjective` | domain/execution/coordinate.go:44-53 | Two call sites share a path only if they are the same, even when step identities contain `/` or `:` |
| `Text.AtoiOfItoa` | domain/execution/coordinate.go:48-48 | Rendering and parsing a segment length is a round trip |
| `EventLog.RunIsSafe` | domain/node/runtime.go:367-432 | For every host and tree: each occurrence goes through a legal path of the phase table from RUNNING with at most one terminal phase, occurrences of a node are 1, 2, 3, …, and events nest like brackets |
| `EventLog.ExecSafe` | domain/node/runtime.go:390-432 | The inductive form for any part of a run |
| `Phases.LegalMeaning` | domain/node/runtime.go:98-111 | A legal history starts RUNNING, runs once, and ends at its first terminal phase |
| `Phases.LeafIsLegal` | domain/node/step.go:75-193 | Whatever the host does, a leaf records a legal history |
| `Phases.LegalExactly` | domain/node/runtime.go:98-111 | The legal histories are exactly those that start RUNNING and go on from phase to phase, a healing ending in TRANSITIONING, FAILED or CANCELED |
| `LeafCourses.LeafRunsItsCourse` | domain/node/step.go:75-193 | A leaf goes through one flat list of demands on its host; the first that is not met decides which phases it records, whether a terminal phase is attempted, when it ends and what it leaves in the log |
| `LeafCourses.SucceedsExactly` | domain/node/step.go:75-193 | A leaf succeeds exactly when every one of these demands is met |
| `LeafCourses.SuccessIsDone` | domain/node/step.go:160-190 | A leaf that succeeds has done what it is for: the consultation right before the accepted SUCCEEDED is an expansion, action or check that succeeded, save for waits and for optional elements that are missing |
| `LeafCourses.RecordedSuccessIsDone` | domain/node/step.go:310-319 | The same for every leaf whose log says SUCCEEDED; only the end of its lifecycle can still fail it |
| `LeafCourses.HealsExactly` | domain/node/step.go:138-159 | HEALING is recorded exactly when the leaf came as far as its lookup, the element was not found and is mandatory, a healer is configured and the sink took the event |
| `LeafCourses.LostIsFailed` | domain/node/step.go:138-152 | A lookup that breaks, or that finds nothing where something must be and cannot be healed, fails the leaf |
| `LeafCourses.FavourableSucceeds` | domain/node/step.go:75-193 | When every answer is favourable the leaf succeeds |
| `LeafCourses.FailureIsReported` | domain/node/step.go:338-353 | CANCELED is recorded only where the context is canceled, FAILED only where it is not, and where the sink takes everything a leaf that began ends in a terminal phase |
| `RunOutcomes.RunTells` | domain/node/composite.go:184-315 | For every tree and host: a run that succeeds brings every occurrence it begins to SUCCEEDED, its own last, and from the first FAILED or CANCELED on nothing but those is recorded |
| `RunOutcomes.UnfitCallFails` | domain/node/composite.go:324-358 | A call with a missing, undeclared or ill-typed value, or an option that is not listed, fails before its target begins |
| `Runtimes.RunProgram` | domain/node/composite.go:226-257 | A program on a new runtime: the outcome is the meaning of the tree, the log is safe and tells how the run went, nothing stays active |
| `Runtimes.Runtime.Run` | domain/node/composite.go:184-315 | Running a node changes state as its meaning says and restores scope and active occurrences, on success and on failure |
| `Runtimes.Runtime.RunRepeat` | domain/node/composite.go:184-212 | The repeat loop |
| `Runtimes.Runtime.RunWorkflow` | domain/node/composite.go:226-257 | A workflow runs in the scope it owns, and gives the caller its own back |
| `Runtimes.Runtime.RunLeaf` | domain/node/step.go:75-193 | One leaf run from pacing to the deferred release |
| `Runtimes.Runtime.StepBody` | domain/node/step.go:113-190 | The phases an action step goes through |
| `Runtimes.Runtime.ApplyAction` | domain/node/step.go:160-190 | Acting on a located element, and every way that can fail; when it succeeds is LeafCourses.SuccessIsDone |
| `Runtimes.Runtime.CheckBody` | domain/node/validation.go:486-523 | The guarded check of a validation or validation group |
| `Runtimes.Runtime.WaitBody` | domain/node/composite.go:73-125 | A wait keeps no phase guard: a refused SUCCEEDED is followed by nothing |
| `Runtimes.Runtime.Transition` | domain/node/step.go:321-336 | A guarded transition: phase table first, then the sink, then the new phase |
| `Runtimes.Runtime.Fail` | domain/node/step.go:338-353 | The failure exit tries one terminal phase |
| `Runtimes.Runtime.Emit` | domain/node/runtime.go:390-432 | RUNNING opens the next occurrence, a terminal phase releases the innermost one, a refused event changes nothing |
| `Runtimes.Runtime.ReleaseOccurrence` | domain/node/runtime.go:367-381 | The release removes the last matching occurrence of the node |
| `Runtimes.Runtime.BeginOccurrence` | domain/node/runtime.go:383-388 | A container opens its occurrence or changes nothing |
| `Runtimes.Runtime.EndOccurrence` | domain/node/runtime.go:435-446 | A container records its terminal phase on its own occurrence and releases it |
| `DecimalLaws.CanonicalIsStable` | domain/parameter/value.go:126-185 | A canonical decimal denotes the number it was made from, is at most 64 KiB long and is its own canonical form |
| `DecimalLaws.CanonicalDecidesEquality` | domain/parameter/value.go:126-185 | Two accepted inputs have the same canonical string exactly when they denote the same number |
| `DecimalLaws.NewNumberIsValid` | domain/parameter/value.go:43-49 | Every number the constructor accepts passes validation |
| `DecimalLaws.NormalIsCanonical` | domain/parameter/value.go:102-107 | Every normal form within the size limit is its own canonical form |
| `DecimalLaws.UniqueUpTo` | domain/parameter/value.go:126-185 | A number has only one normal form |
| `DecimalLaws.CanonicalIsNormal` | domain/parameter/value.go:139-184 | Canonicalisation yields a normal form of the same value |
| `HealStreaks.ObserveKeepsSound` | domain/automation/healing.go:267-340 | Every accepted observation keeps a sound streak sound, except exactly a first failed or bandless observation of a current version on an empty streak |
| `HealStreaks.EmptyStreakCanGetStuck` | domain/automation/healing.go:325-327 | A concrete observation whose accepted successor is refused ever after |
| `HealStreaks.RejectKeepsSound` | domain/automation/healing.go:410-425 | A rejection keeps the streak sound and moves its last sequence forward |
| `HealStreaks.SequenceGrows` | domain/automation/healing.go:520-525 | The last sequence grows strictly with every accepted observation that is not a replay |
| `HealStreaks.ReplayIsIdentity` | domain/automation/healing.go:274-281 | Replaying any consumed observation changes nothing |
| `HealStreaks.AcceptedIsConsumed` | domain/automation/healing.go:520-525 | An accepted observation is consumed, so replaying it at once is such a replay |
| `HealStreaks.RefusalsAreExact` | domain/automation/healing.go:275-285 | The exact conditions of the provenance conflict and the sequence conflict |
| `HealStreaks.AutoPublishIsEarned` | domain/automation/healing.go:286-339 | From nothing, AUTO PUBLISH rests on exactly three current APPLIED successes of one candidate from three instances, with no recovery, stale base or other success between them |
| `HealStreaks.MaturityIsEarned` | domain/automation/healing.go:286-339 | The same for AWAIT APPROVAL, with BELOW CAP successes |
| `HealStreaks.NeutralIsConsumed` | domain/automation/healing.go:317-325 | A failure, or a success without a candidate, on the current version is remembered and changes nothing else |
| `HealStreaks.RunIsEarned` | domain/automation/healing.go:267-425 | Every reachable streak counts exactly the qualifying runs of an unbroken window of accepted observations |
| `HealStreaks.ValidateContributions` | domain/automation/healing.go:427-442 | The validation loops accept exactly lists in strictly growing sequence without a shared identity |
| `HealGovernance.PublishedAtMostOnce` | application/execution/heal_governance.go:394-416 | Across any run of plans and reviews, with replays, refusals and rejections, the AUTO PUBLISH effect is planned at most once; on which facts is HealEffects.EffectRestsOnFacts |
| `HealEffects.EffectRestsOnFacts` | application/execution/heal_governance.go:307-416 | Over every run from nothing: a turn plans a candidate to be published only when its own fact and two earlier ones are successful heals of that candidate decided APPLIED on the current version, from three instances, and no fact accepted in between speaks against it; for approval the same with BELOW CAP |
| `HealEffects.ThreeHealsTakeEffect` | application/execution/heal_governance.go:307-416 | Conversely three such facts, one after the other, on a streak that holds nothing, was reset or counts something else, plan just that effect, naming them |
| `HealEffects.NothingIsStartable` | application/execution/heal_governance.go:189-203 | In particular on the empty streak, when the first plan finds neither a status nor a stored effect |
| `HealEffects.HealStarts` | domain/automation/healing.go:289-327 | A success starts the count anew on an empty or reset streak, on one that counts another candidate or band, and on one that ended on another version |
| `HealEffects.EndingsExactly` | application/execution/heal_governance.go:307-416 | A new fact resets the streak exactly when it says that the old selector works again on the current version, and makes it stale exactly when the version has moved on, while nothing about the streak is final; a reset drops what was counted, a stale streak keeps it |
| `HealGovernance.RejectedIsNeverPublished` | domain/automation/healing.go:410-425 | Once rejected in review a streak stays rejected and is never published, whatever is planned or reviewed later |
| `HealGovernance.StaleIsFinal` | application/execution/heal_governance.go:307-345 | Under one key a stale or rejected streak is final: no planned observation can restart it |
| `HealGovernance.PlanKeepsReadable` | application/execution/heal_governance.go:125-144 | A plan leaves a sound streak readable exactly when it is not the first failed or bandless heal of a current version |
| `HealGovernance.UnreadableForGood` | application/execution/heal_governance.go:189-203 | After an unreadable successor every further plan and review on that streak is refused |
| `HealGovernance.EffectAgrees` | application/execution/heal_governance.go:277-305 | A planned effect is one the stored-effect check accepts against the new streak |
| `Services.ExactlyOnce` | application/execution/entry_completion_transaction.go:220-252 | For every interleaving of workers that retry, crash and lose answers: at most one terminal write, revision equal to its start plus the applied commands, generation one higher exactly when the entry ended CANCELED or ABORTED, ended SUCCEEDED exactly when the run it was ended with succeeded and otherwise FAILED, CANCELED or ABORTED as its intent says; at most one worker is told it ended the entry and at most one that it asked for the abort; completion answers name the status the entry really has, which is the one their own run calls for, and abort answers a decision that is in the ledger |
| `Protocol.RunningLaw` | application/execution/entry_completion.go:299-337 | The law of a RUNNING entry over any ledger of committed transactions: ended at most once, as its run and its intent say |
| `Services.RunsAreInOrder` | application/execution/entry_completion.go:299-372 | For every interleaving, every committed transaction is made under the fence of the entry about the row as the earlier ones left it: an ending has the status and the cause its run and the intent call for and counts revision and generation, an abort changes the intent and the revision alone |
| `Protocol.LedgerInOrder` | application/execution/entry_completion.go:299-372 | The same for every lawful ledger |
| `Protocol.CommitsExactly` | application/execution/entry_completion_transaction.go:234-252 | A completion is committed exactly for a sound new request under the fence of the entry about its present row; a stale fence and a changed row are refused as such |
| `Protocol.AbortCommitsExactly` | application/execution/abort_request_transaction.go:221-242 | The same for abort requests |
| `Protocol.EndableExactly` | application/execution/entry_completion.go:299-337 | A running entry can be ended, whatever its run came to, exactly until its counters have no successor |
| `Protocol.OthersUntouched` | application/execution/entry_completion.go:306-308 | An entry that is not RUNNING is never written |
| `Protocol.EndingIsFinal` | application/execution/entry_completion.go:299-337 | Once ended, an entry keeps the row its ending wrote |
| `Protocol.ReceiptIsDecision` | application/execution/entry_completion_transaction.go:167-186 | A stored receipt carries the decision its own command leads to |
| `Protocol.CompletionConsistent` | application/execution/entry_completion_transaction.go:229-252 | Every completion transaction keeps rows, receipts and ledger consistent |
| `Protocol.AbortConsistent` | application/execution/abort_request_transaction.go:200-242 | Every abort transaction keeps them consistent |
| `Services.EntryCompletionService.Complete` | application/execution/entry_completion_transaction.go:290-337 | Digest, decide, look up, apply: refused, replayed or applied, never twice, and never a contract violation on a consistent store |
| `Services.AbortRequestService.Request` | application/execution/abort_request_transaction.go:279-326 | The same for abort requests |
| `Services.TerminalStore.CompleteEntry` | application/execution/entry_completion_transaction.go:234-252 | The store port: check first, replay a receipt, compare and swap, write verbatim |
| `Services.TerminalStore.RequestAbort` | application/execution/abort_request_transaction.go:221-242 | The abort port; the status of the entry is left alone |
| `Services.RetryReplays` | application/execution/entry_completion_transaction.go:283-289 | Repeating a request that succeeded replays its decision and changes nothing |
| `Completion.CompletionDigestInjective` | application/execution/entry_completion_transaction.go:123-143 | Equal completion digest streams mean equal commands |
| `Completion.AbortDigestInjective` | application/execution/abort_request_transaction.go:106-122 | Equal abort digest streams mean equal commands |
| `Completion.DigestsSeparate` | application/execution/entry_completion_transaction.go:20-20 | A completion stream never equals an abort stream |
| `Completion.WriteCompletionDigest` | application/execution/entry_completion_transaction.go:123-143 | Field by field, the hasher is fed exactly the stream of the command |
| `Completion.WriteAbortDigest` | application/execution/abort_request_transaction.go:106-122 | The same for abort requests |
| `Digests.StreamInjective` | application/execution/entry_completion_transaction.go:356-365 | Streams of length-prefixed strings and eight-byte numbers are uniquely decodable |
| `Digests.Writer.WriteString` | application/execution/entry_completion_transaction.go:356-359 | A string is written with its length in front |
| `Scheduling.DecideAdvance` | application/scheduling/decision.go:51-116 | The decision depends on the states only through plan order, and is refused when they are not one per entry |
| `Scheduling.ValidateSerialShape` | application/scheduling/decision.go:118-171 | The checking loop accepts exactly the states serial execution can produce, and finds the stop |
| `Scheduling.Arrange` | application/scheduling/decision.go:62-84 | States are lined up with the plan exactly when there is one per entry |
| `Scheduling.StopAfter` | application/scheduling/decision.go:191-203 | Every entry still waiting behind the stop is skipped for its cause |
| `Scheduling.Walk` | application/scheduling/decision.go:93-115 | Without a stop: wait for the running entry, start the next, or finish |
| `SchedulingVerdicts.FinalExactly` | application/scheduling/decision.go:86-115 | The final status read off the entry statuses: CANCELED or ABORTED as soon as an entry is, FAILED at the first failure under STOP and once all have finished under CONTINUE, SUCCEEDED exactly when every entry did, and none before |
| `SchedulingVerdicts.NextExactly` | application/scheduling/decision.go:93-109 | An entry is started exactly when nothing has ended the instance, nothing runs and it is the first that waits; so the one behind a failure is started under CONTINUE and never under STOP |
| `SchedulingVerdicts.SkipsExactly` | application/scheduling/decision.go:173-203 | Once the instance has ended, every waiting entry is skipped for the cause that ended it, and nothing else is decided |
| `SchedulingRuns.RunIsSound` | application/scheduling/decision.go:51-203 | Runs from a fresh instance, applying any part of each decision, never produce a shape error |
| `SchedulingRuns.StepKeepsSound` | application/scheduling/decision.go:118-171 | Every step of a run keeps the serial shape |
| `SchedulingRuns.StepIsLegal` | domain/execution/status.go:32-39 | Every change of an entry is one its lifecycle allows |
| `SchedulingRuns.EarlyEndingExactly` | domain/execution/status.go:32-39 | A waiting entry that fails or is canceled before it starts keeps the serial shape if and only if it is the next one to start |
| `SchedulingRuns.OneRunning` | application/scheduling/decision.go:153-159 | At most one entry runs |
| `SchedulingRuns.StartedIsPrefix` | application/scheduling/decision.go:148-162 | The entries that ever began are a prefix of the plan |
| `SchedulingRuns.FinalMeansDone` | application/scheduling/decision.go:86-91 | With a final status nothing runs and nothing is started any more |
| `SchedulingRuns.FinalIsStable` | application/scheduling/decision.go:86-115 | A final status never changes |
| `SchedulingRuns.FinalIgnoresSkips` | application/scheduling/decision.go:191-203 | The final status does not depend on which decided skips were carried out |
| `SchedulingRuns.StepMakesProgress` | application/scheduling/decision.go:51-203 | Every effective step decreases the work that is left |
| `SchedulingRuns.SomethingCanMove` | application/scheduling/decision.go:93-109 | While work is left some step is possible |
| `SchedulingRuns.NoWorkMeansFinal` | application/scheduling/decision.go:110-115 | With no work left there is a final status and nothing more to skip |
| `Distances.LcsInBuffer` | domain/heal/lcs.go:14-30 | The one-row program over a reused workspace stays in bounds and computes the recursive LCS length |
| `Distances.LcsReached` | domain/heal/lcs.go:5-12 | That length is reached by a common subsequence |
| `Distances.LcsBounds` | domain/heal/lcs.go:5-12 | No common subsequence is longer |
| `Distances.LcsSymmetric` | domain/heal/lcs.go:7-9 | Swapping rows and columns changes nothing |
| `Distances.Levenshtein` | domain/heal/scorer.go:335-357 | The two-row program computes the recursive edit distance |
| `Distances.EditsReached` | domain/heal/scorer.go:335-357 | That distance is the number of changes of some script that turns one text into the other |
| `Distances.EditsBounds` | domain/heal/scorer.go:335-357 | And no such script changes less |
| `Distances.EditsBounded` | domain/heal/scorer.go:311-329 | The distance never exceeds the longer length |
| `Distances.EditsZero` | domain/heal/scorer.go:311-329 | The distance is zero exactly for equal texts |
| `Distances.EditsSymmetric` | domain/heal/scorer.go:335-357 | It does not matter which of the two texts is the target |
| `Relocation.NarrowByPath` | domain/heal/lcs.go:36-61 | Narrowing with one workspace yields the specified candidates |
| `Relocation.NarrowedIsArgmax` | domain/heal/lcs.go:36-61 | Exactly the candidates that no other beats remain, and never none |
| `Relocation.WorkspaceLength` | domain/heal/lcs.go:63-75 | The workspace has room for the shorter path of every comparison |
| `Relocation.ScoreIsUnit` | domain/heal/scorer.go:135-172 | With non-negative weights every score lies between zero and one |
| `Relocation.CloneScoresOne` | domain/heal/scorer.go:91-172 | An exact clone scores one exactly when some weight counts and a negative sibling index carries none |
| `Relocation.Heal` | domain/heal/healer.go:71-122 | Healing narrows, scores, sorts and classifies, and refuses an invalid decision |
| `Relocation.HealIsValid` | domain/heal/healer.go:97-122 | With sound candidates the decision is always valid and its best candidate scores highest |
| `Relocation.CloneIsRecovered` | domain/heal/healer.go:71-122 | Clone recovery: an exact clone on the page makes the outcome APPLIED with best score one |
| `Relocation.BestScoresOneExactly` | domain/heal/scorer.go:91-172 | On every page with an exact clone the best score is one if and only if some weight counts and a negative sibling index carries none |
| `Relocation.NoneScoresOne` | domain/heal/scorer.go:365-373 | Where a clone cannot score one, no candidate can |
| `RelocationVerdicts.OutcomeExactly` | domain/heal/healer.go:97-122 | APPLIED exactly when some element nearest to the target reaches the applied cap, BELOW CAP exactly when some reaches the review cap but none the applied one, NO CANDIDATE otherwise; the best is a nearest element that no other outscores |
| `RelocationVerdicts.PerfectScoreExactly` | domain/heal/scorer.go:91-172 | A candidate scores one exactly when the target has something that weighs anything and the candidate agrees in all of it, dimension by dimension |
| `Relocation.RankingIgnoresPageOrder` | domain/heal/healer.go:97-128 | Place by place the ranking has the same score, selector and fingerprint, but perhaps for the framework, in whatever order the page lists its candidates |
| `Relocation.TiesKeepPageOrder` | domain/heal/healer.go:124-128 | Candidates that differ in their framework only stay in the order of the page |
| `Fingerprints.KeyIsCanonical` | domain/heal/order.go:37-64 | Two fingerprints have the same canonical key if and only if they differ at most in their framework |
| `Relocation.OrderIsTotal` | domain/heal/order.go:12-34 | Of two candidates exactly one comes first unless they are the same |
| `Relocation.OrderIsUnique` | domain/heal/order.go:12-34 | Two ordered lists of the same candidates agree place by place |
| `Relocation.SortedIsSorted` | domain/heal/healer.go:124-128 | Sorting permutes the candidates into that order |
| `Evidence.CheckTopology` | domain/evidence/commits.go:160-266 | The filling and draining loops object to nothing exactly when the topology holds, that is when validations and members pair off |
| `Evidence.TopologyExactly` | domain/evidence/commits.go:160-266 | The topology holds exactly when grouped validations and expected members are paired off one to one, every pair agrees on who won and satisfied members passed, and every group ends the committed step occurrence in the way its phase stands for |
| `Evidence.CheckMembers` | domain/evidence/commits.go:212-239 | Members of a group are answered and taken out of the table one by one |
| `Evidence.CheckGroups` | domain/evidence/commits.go:183-240 | All groups are valid, distinct and answered |
| `Evidence.CollectMembers` | domain/evidence/commits.go:166-182 | Duplicates are found exactly, memberships collected exactly |
| `Evidence.EveryValidationAnswers` | domain/evidence/commits.go:246-264 | Every grouped validation answers one expected member of one group |
| `Evidence.EveryMemberIsAnswered` | domain/evidence/commits.go:212-223 | Every expected member is answered by exactly one validation |
| `Evidence.WinnersWon` | domain/evidence/commits.go:224-238 | A validation won exactly when its group passed on its branch, and then it passed |
| `Evidence.PassedGroupsHaveWinners` | domain/evidence/observations.go:277-301 | A passed group has a winning validation, and its step succeeded |

## Left out

- PlanChecks.Seal: leaves out the aggregate size limits (domain/execution/validation.go:377-652) and the identities listed below, which bound or compare inputs and decide nothing else.
- PlanChecks.ValidatePlan: leaves them out as well; dependencies are checked before the budget, where the code prices first and reports a missing reference from there; which plans are accepted is the same.
- Pipeline.ProgramMeansPlan: the texts of steps are not modelled, so a step reads parameters when its texts may name them; a host may do with all the parameters shown to such a step what it likes.
- Relocation.Heal: the library sort is modelled on values, and strings that are not valid UTF-8 are not part of this model.
- Services.ExactlyOnce: the store is one that keeps the documented port contract; outbox, gate and evidence rows of the same transaction are not modelled.
- Completion.CompletionDigestInjective: about the bytes fed to the hash; SHA-256 itself is taken to keep different streams apart.
- Evidence.CheckTopology: counts violations instead of listing them; the codes and texts of violations are not part of this model.
- Selector overlays, the scratchpad of extracted values and `promoteSelector` (domain/node/runtime.go:448-492): they steer which element is looked up and what a text expands to besides parameters, which the host decides here.
- Timers, deadlines, polling and stability times, and budgeted wait as a bound on real time.
- The agreement of a validation group's terminal reason with the step phase, which the code does not keep (domain/node/validation.go:750-761).
- Fault construction, messages, violation order and display names.
- Step-shape field rules other than the numeric bounds, the target of element waits and unique reference steps.
- Entry and instance identities that are compared and copied but decide nothing: sequence numbers, test-task items, schema versions, digests of snapshots.
- White space and control characters outside ASCII, and machine overflow when a path segment length is added to a position.
- Floating-point rounding: weights, scores and thresholds are real numbers.
- Unknown spellings of closed vocabularies (statuses, dispositions, intents), which the code refuses before deciding.
- Workflow folders, automation services and sampling drafts.

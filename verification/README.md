# RESTScope model

RESTScope drives a REST API under test with language-model agents. This project models the deterministic parts that
decide what the agents may do and what is remembered, and proves what they keep. `dafny verify dfyconfig.toml` checks it
with Dafny 4.11.

## Parts

- **Constraint engine.** `Constraints` holds the expression language with its total and its three-valued evaluator,
  `ConstraintLaws` what its operators mean and when partial evaluation decides, `Normalisation` the canonical form and
  the labels, `ConstraintClosure` the component a negative test drops. `RequestTree`, `ResourceGroups`, `SearchUnits`
  and `Solver` are the bounded backtracking search; the main result is `Solver.Solve`: the pruned, capped search equals
  brute force.
- **Response contracts.** `ResponseSchema` is inference and widening on values, `SchemaNodes` the same in place on
  linked nodes. `ResponseMerging` says what an observation makes of declared responses, `ResponseNodes` does it in
  place, and `ContractTracker` is the check-once state machine around them. A schema is read as closed: it accepts a
  value when the kind is listed (integers count under number), every member is declared with an accepting schema and
  every element is accepted by `items`; without `items` only the empty array is accepted.
- **Orchestration.** `LedgerModel` holds records and transitions, `LedgerRuns` what every run keeps, `LedgerLaws` what
  is accepted and offered, `LedgerBound` the tightness of the bound on repeated failures, `Ledger` the mutable object,
  `OrchestrationContracts` the validators in front of it, `OrchestrationRuntime` the loop around it and
  `OrchestrationFailures` runs that end badly.
- **Agent trees.** `Budget` is the shared token allowance, `AgentProfiles` the validation of the Profile graph,
  `AgentTree` the slots and phases. Each method of `AgentTreeControl` is one lock-protected step, so its invariant holds
  under every interleaving.
- **Context window.** `ContextWindow` clips and fits messages, `ContextProjection` chooses interaction groups.
- **References and streams.** `ResponseReference` is the response-field grammar, `LiveObserver` the change stream and
  the browser reducer that replays it.
- **Documents.** `DocumentBuilder` serialises selected schemas and the components they need, with `ComponentNames` for
  references, `RawSchemas` for the raw JSON beside parsed schemas, `DocumentShapes` for what a result describes and
  `SchemaReach` for what leads to what. `DocumentClosure` says when the finished document refers to nothing outside
  itself.
- `Wrappers`, `Sorting`, `Indexes`, `Decimal` and `Texts` are shared.

Classes stand for objects that the program updates in place; each of their methods is proved against a function of the
old state, and the properties are lemmas about those functions. Uninterpreted parts are parameters: regular expression
matching, the canonical sort key (a total order), building a whole document, storing an event.

## Findings

Places where the code does not do what its documentation or its neighbours suggest. Each is proved.

- A built document need not be self-contained: the builder copies the values of `not` and `additionalProperties` inside
  raw schemas, references included, although both hold schemas (`DocumentClosure.BuildHidingGraph`). It is
  self-contained exactly when every reference under those keywords, in the raw part of a schema that is written, names
  one of its components (`DocumentClosure.SelfContainedExactly`); where parsed schemas refer to every recursive
  component that is reached, which components these are is known before building
  (`DocumentClosure.SelfContainedBefore`).
- The response tracker documents its merge as never removing old behaviour; an observed empty body clears the declared
  contents of its response (`ContractTracker.EmptyBodyForgets`; the exact condition is
  `ContractTracker.OnlyEmptyBodiesForget`).
- The Orchestrator validator lets a replan name a Goal criterion or an Attempt as a completed Milestone, and reopen a
  Milestone that does not exist; the Ledger then refuses and the run aborts (`OrchestrationFailures.GoalIsNoMilestone`,
  `OrchestrationFailures.UnknownMilestoneReopened`; the exact condition is
  `OrchestrationContracts.AcceptedReplanRefusal`).
- A Task Executor failure whose message is only white space cannot be recorded and aborts the run
  (`OrchestrationFailures.BlankMessageAborts`, exactly: `OrchestrationRuntime.EndedIsRecorded`). The error model admits
  such a message, asking for one character only; the messages the code itself writes are all non-blank literals.
- A dispatched criterion identity longer than 20 characters aborts the run with the Task left running
  (`OrchestrationFailures.LongCriterionAborts`, exactly: `OrchestrationRuntime.ExecutorAliasesFit`).
- Closing the descendants of an Agent, documented to cancel every uncollected one, does not reach those behind an
  already collected Agent (`AgentTree.MissedDescendants`), and from the root it can miss one that was never flagged
  (`AgentTree.MissFromRoot`). This does no harm where the code calls it: a subagent closes, and so flags its subtree,
  before it becomes terminal, so only descendants started after that are missed, and at depth three there are none
  (`AgentTree.SubagentCloseReachesAll`); the root shuts the whole tree down instead.
- A conversation that fits its budget exactly can be shortened or even refused, because the selection always reckons
  with a gap marker until the last group (`ContextProjection.TinyConversation`; the exact condition is in
  `ContextProjection.AgentContext.MessagesForRequest`). The clipping order never repeats a position, although a comment
  expects it to (`ContextWindow.ClipOrderIsPermutation`).
- A response property named `oneOf`, `anyOf` or `allOf` has a handle that cannot be read back
  (`ResponseReference.HandleRoundTrip`).
- Ending a run with an exception whose text cannot be read changes its status without publishing it; replaying the
  stream then differs from the snapshot until the next run (`LiveObserver.UnreadRun`, exactly:
  `LiveObserver.LiveRunObserver.WaitAfter` and `LiveObserver.UnreadUntilNextRun`).

## Model

| member | source | states |
|---|---|---|
| `Constraints.PartialSound` | restscope/request_generation/constraints.py:756-876 | A verdict reached on some assigned inputs is the truth value under every completion of those inputs. |
| `Constraints.PartialSoundFor` | restscope/request_generation/constraints.py:756-876 | The same when completion only agrees with the partial assignment on what the constraint can observe: values it reads, presence it tests. |
| `Constraints.PartialStable` | restscope/request_generation/constraints.py:756-876 | A decided verdict stays the same however many more inputs are assigned. |
| `Constraints.PartialExact` | restscope/request_generation/constraints.py:756-876 | Once every referenced input is assigned the verdict is decided, and it is the value of full evaluation; cardinality bounds, implication and unavailable arithmetic included. |
| `Constraints.PartialSetSoundFor` | restscope/request_generation/constraints.py:332-352 | A decided verdict on a whole set agrees with full evaluation of the set on every agreeing completion. |
| `Constraints.PartialSetExact` | restscope/request_generation/constraints.py:322-352 | On fully assigned references the set verdict is exactly full evaluation of the set. |
| `Constraints.EvalDependsOnRefs` | restscope/request_generation/constraints.py:671-753 | Full evaluation sees nothing but the values of read inputs and the presence of tested ones. |
| `ConstraintLaws.NumbersCompare` | restscope/request_generation/constraints.py:879-913 | Each of the six comparisons of two numbers holds exactly when the numbers compare so. |
| `ConstraintLaws.TextsCompare` | restscope/request_generation/constraints.py:879-913 | Two texts compare by their first difference, a beginning coming before what continues it. |
| `ConstraintLaws.TextsOrdered` | restscope/request_generation/constraints.py:879-913 | Of two texts exactly one comes first unless they are equal, and coming first is transitive. |
| `ConstraintLaws.SidesExchanged` | restscope/request_generation/constraints.py:879-913 | Greater and at least are less and at most with the sides exchanged. |
| `ConstraintLaws.UnavailableCompares` | restscope/request_generation/constraints.py:671-716 | A comparison with a value that is not there is false. |
| `ConstraintLaws.EqualityLaws` | restscope/request_generation/constraints.py:879-913 | Equality is reflexive and symmetric where values are there, and inequality is its opposite. |
| `ConstraintLaws.OrderLaws` | restscope/request_generation/constraints.py:879-913 | At most is less or equal, and values of kinds that do not compare make all four order comparisons false. |
| `ConstraintLaws.SumLaws` | restscope/request_generation/constraints.py:719-753 | Sums commute and associate, and subtracting undoes adding. |
| `ConstraintLaws.ProductLaws` | restscope/request_generation/constraints.py:719-753 | Products commute, associate and distribute over sums, multiplying undoes dividing, and division by zero gives no value. |
| `ConstraintLaws.OnlyNumbersCalculate` | restscope/request_generation/constraints.py:719-753 | Arithmetic has a value only for two numbers, and then always but for a division by zero. |
| `ConstraintLaws.InputLaws` | restscope/request_generation/constraints.py:671-753 | An input that is absent, or present without a value, gives no value to read; presence is seen either way. |
| `ConstraintLaws.CardinalityLaws` | restscope/request_generation/constraints.py:671-716 | A cardinality holds when the number of members that hold is within its bounds; conjunction and disjunction are its extremes. |
| `ConstraintLaws.LogicLaws` | restscope/request_generation/constraints.py:671-716 | Negation and implication are those of propositional logic. |
| `ConstraintLaws.SetIsConjunction` | restscope/request_generation/constraints.py:322-352 | A set is the conjunction of its members, for both evaluators. |
| `ConstraintLaws.CardinalityDecides` | restscope/request_generation/constraints.py:756-835 | A cardinality is decided exactly when every number of members that may still come to hold agrees. |
| `ConstraintLaws.MembersDecide` | restscope/request_generation/constraints.py:756-835 | A conjunction fails as soon as one member fails and holds when all do; a disjunction dually. |
| `ConstraintLaws.NegationsDecide` | restscope/request_generation/constraints.py:756-835 | An implication is decided as the disjunction it stands for, a negation as what it negates. |
| `ConstraintLaws.LeavesDecide` | restscope/request_generation/constraints.py:838-876 | A comparison or a pattern waits exactly for the inputs it reads. |
| `Normalisation.NormMeans` | restscope/request_generation/constraints.py:594-640 | Normalising an expression changes its truth value under no assignment. |
| `Normalisation.NormIdempotent` | restscope/request_generation/constraints.py:594-640 | Normalising twice is normalising once. |
| `Normalisation.NormSetIdempotent` | restscope/request_generation/constraints.py:289-295 | The same for whole constraint sets, which are also sorted. |
| `Normalisation.SameNorm` | restscope/request_generation/constraints.py:594-640 | Expressions that differ only in the order of commutative children or operands have one normal form. |
| `Normalisation.CanonicalForm` | restscope/request_generation/constraints.py:289-295 | Two sets have the same normal form exactly when they differ only in the order of members and of commuting parts, and then the same assignments satisfy them. |
| `Normalisation.SidesCommute` | restscope/request_generation/constraints.py:594-631 | Exactly the sides of an equality, an inequality, a sum and a product may be exchanged. |
| `Normalisation.MembersCommute` | restscope/request_generation/constraints.py:615-621 | The members of a conjunction, a disjunction or a cardinality may be written in any order. |
| `Normalisation.LabelsMean` | restscope/request_generation/constraints.py:298-319 | Each label (OnlyOne, ZeroOrOne, Or, AllOrNone, Requires) implies its meaning for the expression as it was written. |
| `Normalisation.LabelsGiven` | restscope/request_generation/constraints.py:298-319 | Each label is given exactly for its shape, read off the expression as it was written. |
| `Normalisation.AllOrNoneMeans` | restscope/request_generation/constraints.py:643-664 | The two-branch shape recognised as AllOrNone holds exactly when all of its predicates hold or none does. |
| `Sorting.SortAlike` | restscope/request_generation/constraints.py:594-621 | Two lists sort alike by the key order exactly when one is a rearrangement of the other. |
| `Sorting.SortIgnoresInputOrder` | restscope/request_generation/constraint_solver.py:162-176 | Without ties a sorted list does not depend on the order of its input. |
| `ConstraintClosure.AssociatedConstraintIds` | restscope/request_generation/constraints.py:366-393 | There is one least input set that holds the chosen input and is closed under shared owners, and the loop ends with exactly the constraints, in input order, that touch it. |
| `ConstraintClosure.DropComponent` | restscope/request_generation/selection.py:110-166 | What a negative test keeps are exactly the constraints without an owner in that set. |
| `ConstraintClosure.RetainedUnaffected` | restscope/request_generation/selection.py:110-166 | Changing any inputs of the dropped component changes the truth of no retained constraint. |
| `RequestTree.MarkAncestors` | restscope/request_generation/constraint_solver.py:664-679 | Exactly the ancestors of a present node become present, as valueless overrides where the baseline lacks them; an explicitly absent ancestor fails. |
| `RequestTree.CompleteCandidate` | restscope/request_generation/constraint_solver.py:652-680 | The completed assignments and overrides equal their declarative description, and completion fails exactly when a present node has an absent ancestor. |
| `RequestTree.PartialCandidate` | restscope/request_generation/constraint_solver.py:683-702 | The assignment used for pruning holds the chosen nodes and the presence of their ancestors, and nothing else. |
| `RequestTree.ValuesAreSent` | restscope/request_generation/constraint_solver.py:652-680 | Every value of the completed assignment reaches the request, from the overrides or from the baseline. |
| `RequestTree.PartialViewAgrees` | restscope/request_generation/constraint_solver.py:652-702 | When inputs read by value have no selectable descendants, the pruning view agrees with every completion on all that constraints observe. |
| `Solver.Solve` | restscope/request_generation/constraint_solver.py:122-244 | The pruned and capped search returns the lexicographically first joint candidate that completes, matches the records and satisfies every constraint; Unsatisfiable means there is none; Exhausted exactly when the cap was spent first. |
| `Solver.Search.From` | restscope/request_generation/constraint_solver.py:178-233 | One recursive call performs the declarative scan of the leaves below the current prefix and restores the shared selection. |
| `Solver.Search.TryCandidates` | restscope/request_generation/constraint_solver.py:213-233 | The candidate loop of one unit, stopping at a solution or at exhaustion. |
| `Solver.Search.Descend` | restscope/request_generation/constraint_solver.py:213-233 | A selected candidate is cut exactly when it is pruned, otherwise searched. |
| `Solver.Search.Cut` | restscope/request_generation/constraint_solver.py:213-229 | A prefix is cut exactly when completion already conflicts or a constraint already fails. |
| `Solver.Search.EvaluateLeaf` | restscope/request_generation/constraint_solver.py:178-212 | A full selection counts one state and yields its overrides exactly when it is a solution; past the cap it only sets the exhausted flag. |
| `Solver.PrunedHasNoSolution` | restscope/request_generation/constraint_solver.py:213-229 | No completion of a pruned prefix is a solution. |
| `Solver.KeptFirst` | restscope/request_generation/constraint_solver.py:178-233 | The first solution among the leaves that survive pruning is the first among all joint candidates. |
| `Solver.LexLessIs` | restscope/request_generation/constraint_solver.py:178-233 | First means: with the smaller candidate at the first unit where two choices differ. |
| `Solver.ScanOutcome` | restscope/request_generation/constraint_solver.py:162-244 | The capped scan stops at the first solution, at the end or at the cap, whichever comes first, with the exact count. |
| `Solver.HostEqualIs` | restscope/request_generation/constraint_solver.py:350-358 | Recorded and chosen values are equal as the host language has it: numbers by value, Booleans as 1 and 0, anything else only itself. |
| `Solver.ScalarReadsArePrunable` | restscope/request_generation/constraints.py:488-540 | Validated constraints read only scalar nodes, which have no children, so the side condition of pruning holds. |
| `Solver.PruningNeedsLeaves` | restscope/request_generation/constraint_solver.py:85 | Why validating the constraints first matters: on a problem that reads a node with a selectable child by value, which validation rejects, pruning cuts the only branch although it holds a solution. |
| `ResourceGroups.GroupsTellAll` | restscope/request_generation/constraint_solver.py:258-264 | The groups say exactly what the generators say: one group for each resource, one component for each field, standing for the input of its last generator, in the order in which resources and fields were first met. |
| `ResourceGroups.GroupsAreSeparate` | restscope/request_generation/constraint_solver.py:247-290 | Grouping generators by resource gives groups that share no input and hold configured inputs only. |
| `SearchUnits.RecordCandidates` | restscope/request_generation/constraint_solver.py:278-291 | The joint candidates are projections of complete records, one of each kind, in the order in which the kinds were first observed: no two are equal as the host language compares values, and every complete record is equal to one of them. |
| `SearchUnits.RecordUnit` | restscope/request_generation/constraint_solver.py:266-310 | A record unit holds those candidates, cut to the domain size, the baseline projection at the front in place of the record equal to it, the others as observed and before all that are cut; it fails exactly when there is no complete record. |
| `SearchUnits.PromoteKeeps` | restscope/request_generation/constraint_solver.py:297-304 | Promotion puts the baseline in place of the candidate equal to it, and keeps the kinds and the number of candidates. |
| `SearchUnits.BuildSearchUnits` | restscope/request_generation/constraint_solver.py:247-320 | Every group of several components with an input under search has its unit of records, every other input under search its plain domain, and nothing is chosen twice; it fails exactly when such a group has no complete record. |
| `SearchUnits.PrecedesOrders` | restscope/request_generation/constraint_solver.py:162-176 | Fewest candidates, most references, then names is a total preorder on units. |
| `SearchUnits.UnitOrderIsDeterministic` | restscope/request_generation/constraint_solver.py:162-176 | The searched order does not depend on the order in which units were built. |
| `SearchUnits.SortedIsMostConstrainedFirst` | restscope/request_generation/constraint_solver.py:162-176 | Units are searched with fewest candidates first, of equally many those with most references first, of equal ones by name. |
| `SearchUnits.RecordsMatchIff` | restscope/request_generation/constraint_solver.py:323-358 | The records match exactly when, for every resource, one observed record agrees with the values of all inputs that stand for its fields. |
| `SearchUnits.SolveInputOverrides` | restscope/request_generation/constraint_solver.py:122-244 | Building, ordering and searching together meet the contract of Solver.Solve for exactly those units in exactly that order; on success the request holds, for every resource, the values of one observed record, and an empty domain is reported exactly when a joined group was never observed. |
| `ResponseSchema.InferAccepts` | restscope/api_behavior_monitor/contract_monitor.py:259-289 | The schema inferred from a value accepts it. |
| `ResponseSchema.MergeAccepts` | restscope/api_behavior_monitor/contract_monitor.py:292-312 | A merged schema accepts whatever either argument accepted. |
| `ResponseSchema.MergedTypesAllow` | restscope/api_behavior_monitor/contract_monitor.py:315-332 | Merged types allow exactly the kinds allowed before or observed; number absorbs integer. |
| `ResponseSchema.SelfMerge` | restscope/api_behavior_monitor/contract_monitor.py:292-332 | Merging a schema into itself changes nothing. |
| `ResponseSchema.MergeTwice` | restscope/api_behavior_monitor/contract_monitor.py:292-332 | Merging the same observation again changes nothing. |
| `ResponseSchema.CoversAccepts` | restscope/api_behavior_monitor/contract_monitor.py:292-312 | A schema that covers another accepts everything the other accepts. |
| `ResponseSchema.MergeCovers` | restscope/api_behavior_monitor/contract_monitor.py:292-312 | A merge covers both arguments. |
| `ResponseSchema.MergeLeast` | restscope/api_behavior_monitor/contract_monitor.py:292-312 | And every schema that covers both arguments covers the merge: it is the least one. |
| `ResponseSchema.InferLeast` | restscope/api_behavior_monitor/contract_monitor.py:259-289 | The inferred schema is the least one that accepts its value. |
| `ResponseSchema.WideningIsLeast` | restscope/api_behavior_monitor/contract_monitor.py:259-332 | Widening by any observations gives the least schema that covers the declared one and accepts everything observed. |
| `ResponseSchema.ObservationOrderIrrelevant` | restscope/api_behavior_monitor/contract_monitor.py:292-312 | Merging the same observations in any order and number gives schemas that accept the same values. |
| `ResponseSchema.ObservedAreAccepted` | restscope/api_behavior_monitor/contract_monitor.py:259-332 | After any series of merges every observed value is accepted. |
| `SchemaNodes.InferSchema` | restscope/api_behavior_monitor/contract_monitor.py:259-289 | Building schema nodes from a value gives the inferred schema. |
| `SchemaNodes.InferArray` | restscope/api_behavior_monitor/contract_monitor.py:270-280 | Array items are merged node by node into one items schema. |
| `SchemaNodes.InferObject` | restscope/api_behavior_monitor/contract_monitor.py:280-289 | Every member becomes a property node. |
| `SchemaNodes.SchemaNode.Copy` | restscope/api_behavior_monitor/contract_monitor.py:292-312 | A copy has the same contents and shares no node. |
| `SchemaNodes.SchemaNode.MergeWith` | restscope/api_behavior_monitor/contract_monitor.py:292-312 | Merging in place makes the node tree equal to the merged schema, and reports a change exactly when the contents changed. |
| `SchemaNodes.SchemaNode.MergeProperties` | restscope/api_behavior_monitor/contract_monitor.py:298-307 | The property loop, over properties in any order. |
| `SchemaNodes.SchemaNode.MergeProperty` | restscope/api_behavior_monitor/contract_monitor.py:298-307 | One property is widened in place, or copied in when missing. |
| `SchemaNodes.SchemaNode.MergeItems` | restscope/api_behavior_monitor/contract_monitor.py:307-312 | The items schema is widened in place, or copied in when missing. |
| `SchemaNodes.SchemaNode.MergeTypes` | restscope/api_behavior_monitor/contract_monitor.py:315-332 | The type list becomes the merged list, and the flag says whether it changed. |
| `ResponseNodes.OperationNode.MergeResponse` | restscope/api_behavior_monitor/contract_monitor.py:183-245 | Merging in place turns the responses into the merged ones, and the change list is empty exactly when nothing changed. |
| `ResponseNodes.OperationNode.Begin` | restscope/api_behavior_monitor/contract_monitor.py:195-212 | An exact status starts from a deep copy of its wildcard class or default, which stays as it was. |
| `ResponseNodes.OperationNode.MergeAt` | restscope/api_behavior_monitor/contract_monitor.py:214-245 | One response is widened in place and no other. |
| `ResponseNodes.OperationNode.CopyResponses` | restscope/api_behavior_monitor/contract_monitor.py:89 | The saved responses share no object with the live ones and spell out the same. |
| `ResponseNodes.ResponseNode.Copy` | restscope/api_behavior_monitor/contract_monitor.py:195-199 | A deep copy of one response. |
| `ResponseNodes.ResponseNode.MergeBody` | restscope/api_behavior_monitor/contract_monitor.py:214-245 | What a body shows is added to the contents in place, and each change is named. |
| `ResponseMerging.OtherStatusesUntouched` | restscope/api_behavior_monitor/contract_monitor.py:183-245 | An observation changes the exact status alone. |
| `ResponseMerging.ExactThenClassThenDefault` | restscope/api_behavior_monitor/contract_monitor.py:195-256 | A status starts from its own response, else from the first one of its class, else from the default, else from nothing. |
| `ResponseMerging.ContentsAfter` | restscope/api_behavior_monitor/contract_monitor.py:213-245 | What a body leaves of each media type: an empty one nothing, any other all media types and its own besides. |
| `ContractTracker.ResponseContractTracker.Record` | restscope/api_behavior_monitor/contract_monitor.py:103-143 | A change is made in place and recorded; when that fails the saved copies take its place and spell out what was there before, other operations included. |
| `ContractTracker.ResponseContractTracker.Merge` | restscope/api_behavior_monitor/contract_monitor.py:104-110 | Only the objects of one operation are changed. |
| `ContractTracker.ResponseContractTracker.Observe` | restscope/api_behavior_monitor/contract_monitor.py:63-149 | On schema nodes widened in place, one observation is the all-or-nothing transition: a failure restores responses and retry state exactly, success is reported exactly when it happens, a checked key is never looked at again. |
| `ContractTracker.ResponseContractTracker.ObserveAll` | restscope/api_behavior_monitor/contract_monitor.py:63-149 | A stream of observations, failing ones included, is the run of those transitions. |
| `ContractTracker.RunSynchronised` | restscope/api_behavior_monitor/contract_monitor.py:63-149 | After any stream the durable document is the one built from the live specification. |
| `ContractTracker.CheckedOnce` | restscope/api_behavior_monitor/contract_monitor.py:79-81 | Once a key is checked, its later observations could be dropped from any run. |
| `ContractTracker.CheckedExactly` | restscope/api_behavior_monitor/contract_monitor.py:79-147 | A key is checked after a run exactly when it was before, or a decodable observation of it has succeeded in the state it met. |
| `ContractTracker.RetriedUntilDecoded` | restscope/api_behavior_monitor/contract_monitor.py:99-101 | However many bodies of a key could not be decoded, the next JSON body of it that succeeds is accepted by the live schema. |
| `ContractTracker.FailsOnlyIfUnknown` | restscope/api_behavior_monitor/contract_monitor.py:82-143 | Where everything can be built and recorded, an observation fails only for an unknown operation. |
| `ContractTracker.UndocumentedIsLeftAlone` | restscope/api_behavior_monitor/contract_monitor.py:82-97 | An operation whose own document cannot be built is not looked at. |
| `ContractTracker.UnrecordedChangesNothing` | restscope/api_behavior_monitor/contract_monitor.py:133-143 | What cannot be built or recorded changes neither the live nor the durable specification. |
| `ContractTracker.StaysChecked` | restscope/api_behavior_monitor/contract_monitor.py:79-81 | A checked key stays checked. |
| `ContractTracker.ObservedIsAccepted` | restscope/api_behavior_monitor/contract_monitor.py:63-149 | After a recorded JSON or text observation the live schema of that exact status and media type accepts the value and all it accepted before. |
| `ContractTracker.OtherOperationsUntouched` | restscope/api_behavior_monitor/contract_monitor.py:63-149 | Observations of other operations leave an operation as it is. |
| `ContractTracker.OnlyEmptyBodiesForget` | restscope/api_behavior_monitor/contract_monitor.py:213-217 | A live schema stops accepting a value exactly when an empty body of its own exact response is merged: not checked before, and recorded. |
| `ContractTracker.EmptyBodyForgets` | restscope/api_behavior_monitor/contract_monitor.py:213-217 | One answer without a body, and the declared text of its response is gone. |
| `LedgerRuns.RunKeeps` | restscope/orchestration/ledger.py:50-231 | In every state of every run: the n-th Attempt closed the n-th Task and at most the last Task runs; pending Milestones are those of the current revision; each revision record lists exactly what it created, completed and superseded; references point strictly backwards; repeats of failed work cite the failure. |
| `LedgerRuns.StepKeeps` | restscope/orchestration/ledger.py:50-245 | Every call, accepted or rejected, keeps all of that. |
| `LedgerRuns.RunGrows` | restscope/orchestration/ledger.py:50-245 | Along a run Attempts and revisions are only appended, and Tasks and Milestones change at most from running or pending to their final status. |
| `LedgerRuns.PendingAfterReplan` | restscope/orchestration/ledger.py:111-135 | What is pending after a replan is exactly the proposed plan, in order. |
| `LedgerRuns.RepeatedReplanRefused` | restscope/orchestration/ledger.py:60-79 | An accepted replan that completes nothing changes the future work, and repeating it is refused. |
| `LedgerRuns.RefusedRetryIs` | restscope/orchestration/ledger.py:290-312 | A proposal is an unchanged retry exactly when an earlier Task with its objective, purpose and criteria failed and it has no reason or does not cite the Attempt of that Task. |
| `LedgerLaws.ReplanAccepted` | restscope/orchestration/ledger.py:57-99 | A replan is accepted exactly when it is current, between Tasks, changes something, completes pending Milestones once each and reopens known ones. |
| `LedgerLaws.ReplanRefusals` | restscope/orchestration/ledger.py:57-99 | Each refusal names what was wrong. |
| `LedgerLaws.ReplanCarriedOut` | restscope/orchestration/ledger.py:101-144 | It closes every pending Milestone, as achieved exactly where it says so, adds the proposed ones in order and one revision record, and touches no Task. |
| `LedgerLaws.DispatchAccepted` | restscope/orchestration/ledger.py:146-158 | A dispatch is accepted exactly when it is current, between Tasks, for a pending Milestone, cites known Attempts and is no unchanged retry. |
| `LedgerLaws.AttemptAccepted` | restscope/orchestration/ledger.py:174-182 | A result is accepted exactly when it is for the running Task, has one verdict for each criterion and none besides, and is completed only with all met. |
| `LedgerLaws.FailureAccepted` | restscope/orchestration/ledger.py:198-221 | A failure is accepted exactly when it is for the running Task, with a code of at most 120 and a message of at most 2000 characters that are not all white space. |
| `LedgerLaws.CompleteAccepted` | restscope/orchestration/ledger.py:233-243 | A completion is accepted exactly when it is current, after a plan, between Tasks, with one verdict for each Goal criterion. |
| `LedgerRuns.RecordedShape` | restscope/orchestration/ledger.py:182-196 | Closing the active Task replaces exactly the last Task. |
| `LedgerRuns.AtMostTwentyOneFailures` | restscope/orchestration/ledger.py:290-312 | No reachable state holds more than 21 failed Tasks with the same objective, purpose and criteria. |
| `LedgerRuns.TwentySecondIsRefused` | restscope/orchestration/ledger.py:290-312 | After 21 such failures every proposal of the same work is refused. |
| `LedgerBound.TwentyOneFailuresHappen` | restscope/orchestration/ledger.py:290-312 | A run with 21 such failures exists, so the bound is exact. |
| `Ledger.TaskLedger.constructor` | restscope/orchestration/ledger.py:29-38 | A new Ledger is empty and satisfies the invariant. |
| `Ledger.TaskLedger.ApplyReplan` | restscope/orchestration/ledger.py:50-144 | The object performs exactly the replan transition, or reports its first error and changes nothing; the invariant is kept. |
| `Ledger.TaskLedger.Dispatch` | restscope/orchestration/ledger.py:146-172 | The same for dispatch, which returns the new running Task. |
| `Ledger.TaskLedger.RejectUnchangedFailedRetry` | restscope/orchestration/ledger.py:290-312 | The loop rejects exactly when some identical failed Task is not cited with a reason. |
| `Ledger.TaskLedger.AppendAttempt` | restscope/orchestration/ledger.py:174-196 | The same for a Task result. |
| `Ledger.TaskLedger.AppendFailure` | restscope/orchestration/ledger.py:198-231 | The same for a lifecycle failure. |
| `Ledger.TaskLedger.Complete` | restscope/orchestration/ledger.py:233-245 | The same for completion. |
| `OrchestrationContracts.ValidateOrchestratorOutput` | restscope/orchestration/contracts.py:29-87 | Each error is reported exactly under its condition, and no error means the decision is accepted. |
| `LedgerLaws.RevisionAliasIs` | restscope/orchestration/contracts.py:43-49 | A revision is declared by the word and its number in digits. |
| `OrchestrationContracts.ValidateTaskExecutionOutput` | restscope/orchestration/contracts.py:108-134 | The same for Task results. |
| `LedgerLaws.ReplanText` | restscope/orchestration/contracts.py:90-100 | The measured text of a replan is that of its Milestones written one after the other. |
| `LedgerLaws.DispatchText` | restscope/orchestration/contracts.py:90-100 | The same for a dispatched Task, with its criteria, citations and reason. |
| `LedgerLaws.ResultText` | restscope/orchestration/contracts.py:90-100 | The same for a Task result, with its verdicts. |
| `OrchestrationContracts.AliasesUniqueAndFew` | restscope/orchestration/runtime.py:171-183 | The identities offered in any reachable state are distinct and at most 44. |
| `LedgerLaws.OfferedAre` | restscope/orchestration/runtime.py:171-183 | An Orchestrator decision may name the revision, the Goal criteria, the pending Milestones and the newest twenty Attempts, and nothing else. |
| `OrchestrationContracts.AcceptedResultIsRecorded` | restscope/orchestration/contracts.py:108-134 | While a Task runs, its validator accepts a result exactly when the Ledger records it and its text is short enough. |
| `OrchestrationContracts.AcceptedCompletionIsCarriedOut` | restscope/orchestration/contracts.py:79-87 | Between Tasks, the validator accepts a completion exactly when the Ledger carries it out. |
| `OrchestrationContracts.AcceptedDispatchRefusal` | restscope/orchestration/contracts.py:67-78 | An accepted dispatch is refused exactly when it repeats an earlier failure without a reason or without citing it. |
| `OrchestrationContracts.AcceptedReplanRefusal` | restscope/orchestration/contracts.py:54-66 | Exactly when the Ledger refuses an accepted replan: nothing changes, a completed identity is not a Milestone, or a reopened Milestone does not exist. |
| `OrchestrationFailures.GoalIsNoMilestone` | restscope/orchestration/contracts.py:54-66 | A run of one accepted replan that completes goal_1 is aborted because that is no Milestone. |
| `OrchestrationFailures.UnknownMilestoneReopened` | restscope/orchestration/contracts.py:54-66 | A run of one accepted replan that reopens milestone_1 before any exists is aborted. |
| `OrchestrationFailures.BlankMessageAborts` | restscope/orchestration/runtime.py:117-132 | After an accepted plan and dispatch, a Task Executor that fails with a message of one space aborts the run. |
| `OrchestrationFailures.LongCriterionAborts` | restscope/agent/contracts.py:40-48 | After an accepted plan, an accepted dispatch with criterion_12345678901 aborts the run and leaves its Task running. |
| `OrchestrationRuntime.RunLoop` | restscope/orchestration/runtime.py:63-160 | The loop over the mutable Ledger computes the outcome of the turn-by-turn description. |
| `OrchestrationRuntime.RunTask` | restscope/orchestration/runtime.py:112-150 | Recording what a Task Executor did performs the transition that AcceptedTurnEnds describes without it. |
| `OrchestrationRuntime.RuntimeEnds` | restscope/orchestration/runtime.py:63-160 | A run of validated turns is still idle, concludes with a plan, no running Task and one verdict per Goal criterion, or aborts for one of six listed reasons. The i-th dispatching turn has become the i-th Task and Attempt: the result it returned, the cut code and message it ended with, or the crash code with the stripped text it raised; the i-th replan has become the i-th revision. A validated result or completion is never refused. |
| `OrchestrationRuntime.AcceptedTurnEnds` | restscope/orchestration/runtime.py:84-152 | The same for one turn: a turn that goes on leaves exactly the Task and Attempt, or exactly the plan, it asked for; a completion leaves both as they are; an abort has its exact cause. |
| `OrchestrationRuntime.CompletionIsTerminal` | restscope/orchestration/runtime.py:152-160 | Nothing after a terminal turn is looked at. |
| `OrchestrationRuntime.CrashIsRecorded` | restscope/orchestration/runtime.py:133-143 | Whatever text a runtime error carries, the Ledger records it. |
| `OrchestrationRuntime.EndedIsRecorded` | restscope/orchestration/runtime.py:117-132 | A lifecycle failure is recorded exactly when its message, cut to 2000 characters, is not all white space. |
| `OrchestrationRuntime.OrchestratorAliasesFit` | restscope/agent/contracts.py:40-48 | The Orchestrator task is rejected only for an identity longer than 20 characters. |
| `OrchestrationRuntime.ExecutorAliasesFit` | restscope/agent/contracts.py:40-48 | The same for the Task Executor task, whose criterion identities a decision chooses. |
| `Budget.RolloutBudget.Charge` | restscope/harness/agent_control.py:76-110 | The used amount is the sum of the weighted charges; each of the 50, 25 and 10 percent reminders is returned by exactly the first charge that reaches its share. |
| `Budget.ChargeAnnounces` | restscope/harness/agent_control.py:97-103 | The one-shot comparison with the previous remainder finds exactly that first charge. |
| `Budget.LocalUsage` | restscope/agent/runtime.py:148-156 | The counters of one Agent loop end with its reported usage. |
| `Budget.UsageAtMostCharged` | restscope/agent/runtime.py:486-508 | One Agent reports at most what it was charged, and less exactly when some response has more and another fewer cached than prompt tokens. |
| `Budget.ReportedAtMostCharged` | restscope/agent/runtime.py:486-508 | Under every interleaving all reports together are at most the amount charged, with the same exact condition for equality. |
| `Budget.ExactWithoutOverclaim` | restscope/agent/runtime.py:486-508 | Equality when no response reports more cached than prompt tokens. |
| `AgentProfiles.ProfileSearch.Visit` | restscope/harness/agent_runtime.py:647-658 | A visit ends with the Profile visited and the stack as before, or names a Profile on a cycle, or an unknown child. |
| `AgentProfiles.RejectProfileCycles` | restscope/harness/agent_runtime.py:642-661 | The search terminates and accepts exactly the closed acyclic registries, and then every Profile was finished after its children. |
| `AgentProfiles.LongestBounds` | restscope/harness/agent_runtime.py:667-671 | No path from a Profile is longer than its longest. |
| `AgentProfiles.LongestAttained` | restscope/harness/agent_runtime.py:667-671 | Some path is as long. |
| `AgentProfiles.RejectProfileDepth` | restscope/harness/agent_runtime.py:664-677 | Accepts exactly the registries without a chain of more than three children. |
| `AgentProfiles.ShallowIsAcyclic` | restscope/harness/agent_runtime.py:642-677 | Such registries have no cycle: a cycle would give chains of any length. |
| `AgentProfiles.ValidateProfiles` | restscope/harness/agent_runtime.py:449-450 | Both checks, one after the other, accept exactly the registries whose children are known and without a chain of more than three children. |
| `AgentTree.AgentTreeControl.RegisterRoot` | restscope/harness/agent_control.py:160-178 | The root takes the first slot; a second root is refused. |
| `AgentTree.AgentTreeControl.StartChild` | restscope/harness/agent_control.py:198-257 | Each refusal under its exact condition; a failed submission leaves no trace; with a validated registry the depth refusal never happens. |
| `AgentTree.AgentTreeControl.Begin` | restscope/harness/agent_control.py:331-336 | A queued child starts running, its version advances. |
| `AgentTree.AgentTreeControl.Finish` | restscope/harness/agent_control.py:361-370 | A running child ends, its version advances. |
| `AgentTree.AgentTreeControl.BeginWait` | restscope/harness/agent_control.py:259-271 | Waiting needs uncollected direct children and remembers their versions. |
| `AgentTree.AgentTreeControl.EndWait` | restscope/harness/agent_control.py:281-295 | However often a child is named, it is collected once and only when terminal; timed out exactly when no named child moved or ended. |
| `AgentTree.AgentTreeControl.CollectTerminal` | restscope/harness/agent_control.py:288-294 | One iteration of the collecting loop. |
| `AgentTree.AgentTreeControl.CancelChild` | restscope/harness/agent_control.py:297-314 | Only an uncollected, unfinished direct child is flagged. |
| `AgentTree.AgentTreeControl.CloseDescendants` | restscope/harness/agent_control.py:316-321 | Flags exactly the records reached from the owner without passing a collected one. |
| `AgentTree.AgentTreeControl.DescendantIds` | restscope/harness/agent_control.py:415-428 | The frontier search terminates and finds exactly those. |
| `AgentTree.MissedDescendants` | restscope/harness/agent_control.py:316-321 | An uncollected descendant is missed exactly when a collected Agent stands in between. |
| `AgentTree.MissFromRoot` | restscope/harness/agent_control.py:415-428 | A tree grown step by step in which the search from the root misses an Agent that was never flagged. |
| `AgentTree.MissedAreAtWork` | restscope/agent/runtime.py:356-361 | Since every Agent closes before it ends, what such a search leaves unflagged was started by an Agent that has not closed. |
| `AgentTree.SubagentCloseReachesAll` | restscope/agent/runtime.py:356-361 | Under a validated registry, once a subagent has closed, all its uncollected descendants are flagged, missed ones included. |
| `AgentTree.AgentTreeControl.CloseAgent` | restscope/agent/runtime.py:356-361 | Closing a subagent flags it and exactly the records its search reaches, and keeps the invariant that open children of closed Agents are flagged. |
| `AgentTree.AgentTreeControl.Close` | restscope/harness/agent_control.py:323-329 | Flags every uncollected record. |
| `AgentTree.ChildPath` | restscope/harness/agent_runtime.py:332-337 | An authorised child extends its owner chain of Profiles, which ends at depth three in a validated registry. |
| `AgentTree.DepthAtMostThree` | restscope/harness/agent_control.py:207-213 | In a tree grown under a validated registry no Agent is deeper than three. |
| `AgentTree.CollectedOnce` | restscope/harness/agent_control.py:259-295 | Over any interleaving a record is collected at most once, and nothing about it changes afterwards. |
| `AgentTree.AdvancesAlong` | restscope/harness/agent_control.py:160-370 | Over any interleaving records keep their place and only move forward. |
| `ContextWindow.ClipText` | restscope/context/context.py:466-480 | A clipped text has exactly its target length; a short one is unchanged. |
| `ContextWindow.MarkerReads` | restscope/context/context.py:470 | The size in a clipping marker reads back as the original size. |
| `ContextWindow.CharsMeasure` | restscope/context/context.py:366-380 | The size of a conversation is the length of its text: of every message its role, content, name and call identity, and of every call its identity, name and arguments. |
| `ContextWindow.ClipShowsSize` | restscope/context/context.py:470-473 | It shows the original size first, and with little room how it began. |
| `ContextWindow.ClipShowsEnds` | restscope/context/context.py:474-480 | Given room, it shows how the text began and how it ended, in nearly equal parts. |
| `ContextWindow.ClipOrderIsPermutation` | restscope/context/context.py:433-447 | Every unprotected position occurs exactly once in the clipping order. |
| `ContextWindow.FitMessageContents` | restscope/context/context.py:421-463 | Succeeds exactly when protected messages, metadata and 32 characters of every other message fit; then its text fits the budget, it loses nothing but content, and clips a message only when all of less worth are down to 32 characters: old feedback, the task, instructions, the newest two messages. |
| `ContextProjection.RequiredGroupIndexes` | restscope/context/context.py:383-394 | Finds the newest tool exchange and the newest feedback. |
| `ContextProjection.SelectGroups` | restscope/context/context.py:304-322 | The loop from newest to oldest selects what the greedy description says. |
| `ContextProjection.GreedyIsNewestFirst` | restscope/context/context.py:304-322 | A group that is not required is selected exactly when it fits beside the required and the newer selected ones, whatever was skipped between. |
| `ContextProjection.GapTells` | restscope/context/context.py:405-412 | The marker tells how many groups are left out. |
| `ContextProjection.ChosenInOrder` | restscope/context/context.py:413-418 | Older groups come before newer ones, each whole. |
| `ContextProjection.NothingOmittedIff` | restscope/context/context.py:304-330 | A request omits nothing exactly when all groups are required, or everything fits and so does everything but the oldest optional group with a marker. |
| `ContextProjection.FitsWithMarker` | restscope/context/context.py:304-330 | In particular when the full history and one gap marker fit. |
| `ContextProjection.FittingHistoryRefused` | restscope/context/context.py:304-343 | A concrete history that fits its budget and is refused, because the marker of the first step does not fit. |
| `ContextProjection.CostGrows` | restscope/context/context.py:397-418 | While something stays omitted, selecting more never costs less, shrinking markers included. |
| `ContextProjection.PairedProject` | restscope/context/context.py:397-418 | A projection of whole groups keeps every tool result after the call it answers. |
| `ContextProjection.PairedClipped` | restscope/context/context.py:449-458 | Clipping orphans no tool result. |
| `ContextProjection.AgentContext.constructor` | restscope/context/context.py:75-108 | The stable messages and the task are clipped to their limits. |
| `ContextProjection.AgentContext.AppendAssistant` | restscope/context/context.py:115-142 | One new group. |
| `ContextProjection.AgentContext.AppendToolResult` | restscope/context/context.py:144-169 | The result joins the newest group that issued the call; an unknown call changes nothing. |
| `ContextProjection.AgentContext.AppendFeedback` | restscope/context/context.py:171-181 | One new group. |
| `ContextProjection.AgentContext.ReplaceCompactedHistory` | restscope/context/context.py:238-282 | The history becomes one summary message, and the number of groups removed is returned. |
| `ContextProjection.AgentContext.MessagesForRequest` | restscope/context/context.py:284-349 | The text of the request fits the budget, which is the least of three allowances; it keeps protected instructions word for word, holds the required groups and newest first every other that fits, whole and in order, and is refused exactly when nothing can fit; it is the whole history exactly when that fits, and so does all but the oldest optional group with a marker. |
| `ContextProjection.TinyConversation` | restscope/context/context.py:304-343 | A conversation grown by three calls, with a budget of exactly its size, whose request is refused. |
| `ResponseReference.Handle` | restscope/operation_references/response.py:146-157 | Prints the handle of a reference. |
| `ResponseReference.Selector` | restscope/operation_references/response.py:159-168 | Prints its selector. |
| `ResponseReference.Spelling` | restscope/operation_references/response.py:33-41 | A Schema branch shows in the handle and not in the selector. |
| `ResponseReference.FromHandle` | restscope/operation_references/response.py:92-144 | The loop reads exactly the handle grammar. |
| `ResponseReference.FromSelector` | restscope/operation_references/response.py:51-90 | The loop reads exactly the selector grammar. |
| `ResponseReference.HandleRoundTrip` | restscope/operation_references/response.py:92-157 | A printed handle reads back as the reference exactly when no property is named oneOf, anyOf or allOf; otherwise it is rejected. |
| `ResponseReference.NormalisedIsStable` | restscope/operation_references/response.py:92-157 | What any handle was read as prints to a handle that reads the same. |
| `ResponseReference.SelectorRoundTrip` | restscope/operation_references/response.py:51-168 | A printed selector reads back as the reference without its Schema branches. |
| `ResponseReference.SelectorIsCanonical` | restscope/operation_references/response.py:51-168 | An accepted selector is the only spelling of its reference. |
| `ResponseReference.SelectValues` | restscope/operation_references/response.py:179-212 | The level-by-level loops collect what walking the document reaches, in document order. |
| `ResponseReference.EveryPlaceInOrder` | restscope/operation_references/response.py:179-212 | The selected values are those at all places of the document that the steps lead to, each once, in document order. |
| `ResponseReference.SelectorSelectsTheSame` | restscope/operation_references/response.py:179-212 | A reference and the one read back from its selector select the same values from every document. |
| `ComponentNames.DecodeEncode` | restscope/openapi_parser/document_builder.py:812-849 | Unescaping undoes escaping for every name, as section 4 of RFC 6901 wants it. |
| `ComponentNames.EmittedRefResolves` | restscope/openapi_parser/document_builder.py:812-849 | An emitted reference reads back as the component it was made for, the empty name excepted. |
| `ComponentNames.RefsRead` | restscope/openapi_parser/document_builder.py:812-829 | A reference is read exactly when it is one of the two places followed by one known name, and each refusal has its cause. |
| `DocumentBuilder.DocumentBuilder.constructor` | restscope/openapi_parser/document_builder.py:171-180 | Identities name the components they belong to. |
| `DocumentBuilder.DocumentBuilder.SerializeSchema` | restscope/openapi_parser/document_builder.py:510-617 | Terminates; the result describes the schema node with its raw keywords and children, every component reference made names a finished or open component, and an error has its cause in the graph. |
| `DocumentBuilder.DocumentBuilder.SerializeChildren` | restscope/openapi_parser/document_builder.py:550-604 | Every child is described in order. |
| `DocumentBuilder.DocumentBuilder.RawExtras` | restscope/openapi_parser/document_builder.py:619-633 | Exactly the unmodelled raw keywords are carried over, each as its kind of keyword is, beside what the raw reference names; a boolean there or a reference that is no text fails. |
| `DocumentBuilder.DocumentBuilder.NormalizeKeyword` | restscope/openapi_parser/document_builder.py:635-663 | Keywords known to hold schemas are rebuilt, alone, in lists or by name; all others, `not` and `additionalProperties` among them, are copied. |
| `DocumentBuilder.DocumentBuilder.NormalizeRawSchema` | restscope/openapi_parser/document_builder.py:665-687 | A dictionary in a schema position is rebuilt keyword by keyword and its own reference resolved, joined with its siblings if any are left. |
| `DocumentBuilder.DocumentBuilder.ResolveRawSchemaRef` | restscope/openapi_parser/document_builder.py:712-723 | A raw reference is inlined once per chain, then referred to. |
| `DocumentBuilder.DocumentBuilder.EnsureSchemaComponent` | restscope/openapi_parser/document_builder.py:831-845 | The named component is finished or open afterwards. |
| `RawSchemas.DialectIsModern` | restscope/openapi_parser/document_builder.py:689-710 | No nullable flag, no file type and no Boolean exclusive bound beside a plain one is left; a schema without older keywords stays as it is. |
| `RawSchemas.DialectKeepsMeaning` | restscope/openapi_parser/document_builder.py:689-710 | Rewriting keeps what a schema says: the kinds, the format and the limits it has in the older dialect are those it has in the newer one. |
| `DocumentBuilder.SiblingsRewritten` | restscope/openapi_parser/document_builder.py:668-687 | What stands beside a reference is every other keyword, rebuilt or copied, with the older ones rewritten; nothing is left exactly when there was nothing to keep. |
| `DocumentBuilder.DocumentBuilder.Build` | restscope/openapi_parser/document_builder.py:182-212 | Every selected schema and every component is described, every reference the builder makes names a component of the document, a component is copied only if it is reached and is referenced by a parsed schema or recursive, and a failure has its cause there. |
| `RawSchemas.FollowedOrHidden` | restscope/openapi_parser/document_builder.py:635-663 | Every reference of a raw schema is rebuilt or sits under `not` or `additionalProperties`. |
| `DocumentShapes.HiddenSurvives` | restscope/openapi_parser/document_builder.py:665-687 | A reference under those keywords is still there, as it was, in what the schema was rebuilt to. |
| `DocumentShapes.SurvivorOrigin` | restscope/openapi_parser/document_builder.py:665-687 | A reference that is still there was under those keywords, or comes with a component inlined for another reference. |
| `DocumentClosure.CarriedExactlyHidden` | restscope/openapi_parser/document_builder.py:510-687 | A document carries a raw reference exactly when some schema written in it has that reference, in its raw part, under those keywords. |
| `DocumentClosure.SelfContainedExactly` | restscope/openapi_parser/document_builder.py:182-212 | A finished document is self-contained exactly when all such references name its components. |
| `DocumentClosure.NamesOfDocument` | restscope/openapi_parser/document_builder.py:131-133 | Every component that a reached schema refers to is copied, and any other copied one is recursive. |
| `DocumentClosure.SelfContainedBefore` | restscope/openapi_parser/document_builder.py:131-133 | Where every reached recursive component is referenced by a parsed schema, the copied components are exactly the referenced ones, so that whether the document will be self-contained is decided by the graph and the selection. |
| `DocumentClosure.BuildDocument` | restscope/openapi_parser/document_builder.py:182-212 | A build gives such a document or the reason why not. |
| `SchemaReach.ReachableCloses` | restscope/openapi_parser/document_builder.py:510-687 | The selected schemas and all that serialising them leads to form a closed set. |
| `DocumentClosure.NothingHidden` | restscope/openapi_parser/document_builder.py:182-212 | A graph whose raw schemas have no reference under those keywords yields self-contained documents only. |
| `DocumentClosure.BuildHidingGraph` | restscope/openapi_parser/document_builder.py:61-71 | Building a schema with a reference to Tag under `if` and one of the two keywords succeeds with a document that refers to Tag and has no component. |
| `LiveObserver.LiveRunObserver.BeginRun` | restscope/observability/observer.py:140-176 | A new run drops old evidence and publishes one reset. |
| `LiveObserver.LiveRunObserver.EndRun` | restscope/observability/observer.py:178-212 | A running run ends and is published once; an exception whose text cannot be read changes the status unpublished. |
| `LiveObserver.LiveRunObserver.InterruptRun` | restscope/observability/observer.py:214-258 | Every running card becomes a stopped warning, then the run stops; all published. |
| `LiveObserver.LiveRunObserver.AllocateOrder` | restscope/observability/observer.py:624-641 | Places in start order strictly increase within a run; storing the event is a separate step. |
| `LiveObserver.LiveRunObserver.Store` | restscope/observability/observer.py:665-675 | An event is stored and published; a first sight appends it to the order. |
| `LiveObserver.LiveRunObserver.UpdateEvent` | restscope/observability/observer.py:677-689 | An update keeps the order; an unknown event changes nothing. |
| `LiveObserver.LiveRunObserver.RecordOrchestration` | restscope/observability/observer.py:453-483 | Only a newer revision replaces the projection; with the invariant every method keeps, the revision never goes back within a run. |
| `LiveObserver.LiveRunObserver.Publish` | restscope/observability/observer.py:699-709 | Cursors strictly increase, and every client stays in step. |
| `LiveObserver.LiveRunObserver.WaitAfter` | restscope/observability/observer.py:485-498 | Folding what is newer than any cursor onto the state streamed up to it gives the current snapshot, across resets, exactly when no exception with unreadable text has ended a running run since the last run began; onto a snapshot read there, under that condition once a change tells the run, and before that when the snapshot shows the current run. |
| `LiveObserver.LiveRunObserver.Close` | restscope/observability/observer.py:500-514 | All evidence is dropped. |
| `LiveObserver.PublishKeeps` | ui/src/state.ts:67-94 | A published step brings every client from the old to the new snapshot. |
| `LiveObserver.ResetKeeps` | ui/src/state.ts:71-77 | A reset brings every client to the same fresh state. |
| `LiveObserver.HydrationAgrees` | ui/src/state.ts:36-64 | Snapshots may arrive in any order and number: a client ends up holding exactly one of them, none older than another. |
| `LiveObserver.OverlapIsIgnored` | ui/src/state.ts:67-94 | Changes that a client has seen already are ignored, so overlapping deliveries do no harm. |
| `LiveObserver.OlderOrchestrationIsIgnored` | ui/src/state.ts:67-94 | A client keeps its Orchestration exactly when the one it receives is not newer, or the same. |
| `LiveObserver.UnreadUntilNextRun` | restscope/observability/observer.py:178-212 | Once an exception with unreadable text has ended a running run, no later end or interruption publishes it; beginning the next run does away with it. |
| `LiveObserver.UnreadRun` | restscope/observability/observer.py:178-212 | Two calls after which the streamed run is running and the snapshot shows it errored. |

## Left out

- Solver.Solve: takes the joint candidates of each unit as given; how a domain is sampled, sorted by distance or filled
  with generated values is not modelled.
- Constraints.PartialExact: regular expressions are an uninterpreted predicate, numbers are reals, a division by zero is
  unavailable; objects and arrays are opaque values.
- Normalisation.CanonicalForm: the canonical text key is any total order on expressions; its spelling is not modelled.
- ConstraintClosure.DropComponent: the random choice of the negative input and of generators is not modelled.
- SchemaNodes.SchemaNode.MergeWith: nodes carry types, properties and items only; other schema fields are never touched
  by a merge.
- ContractTracker.ResponseContractTracker.Observe: the schema nodes of different responses are separate trees, as the
  parser makes them; a tracker without catalog, media-type spelling and response headers are not modelled.
- Ledger.TaskLedger.Dispatch: text length bounds and identity patterns of the record models are assumed only where a
  proof needs them.
- OrchestrationContracts.ValidateTaskExecutionOutput: findings, unresolved issues, state changes and evidence labels are
  one list of texts.
- OrchestrationRuntime.RunLoop: a finite list of turns stands for the unbounded loop; session records, observation
  publishing and the rendering of prompts are not modelled.
- Budget.RolloutBudget.Charge: amounts are reals, rounding of floating-point numbers is not modelled.
- AgentTree.AgentTreeControl.EndWait: a wait ends at any later step, so timeouts, notification and liveness are not
  modelled; nor are results and their projection. That an Agent starts no child after it was closed is not enforced:
  such children are set aside where it matters.
- ContextProjection.AgentContext.MessagesForRequest: numeric metrics, deep copies and the compaction prompt are not
  modelled; the arguments of a call are given as their JSON text.
- ResponseReference.FromHandle: digits are the ten ASCII digits; other Unicode digits, which the code accepts or fails
  on later, are not modelled.
- DocumentBuilder.DocumentBuilder.Build: selected schemas stand for whole operations; plain keyword values, examples,
  security schemes, servers and extensions are not modelled, nor is the order of keys. References count where a schema
  can stand, not inside examples, defaults, extensions or other data. An exception ends the build, so the state after
  one is not described.
- DocumentClosure.SelfContainedBefore: a recursive component that only raw references name may or may not be copied,
  depending on the order in which the builder meets those references; `NamesOfDocument` bounds the components then.
- LiveObserver.LiveRunObserver.WaitAfter: spans, HTTP exchanges, redaction and the folding of model messages are not
  modelled; the displayed order of events is a function of the replayed state.
- Agent identities and times are fresh or arbitrary values; threads are sequences of atomic steps.
- HTTP transport, storage, tracing, the command line, configuration, prompt texts and the user interface beyond its
  reducer are not part of this model.

# A model of the service kit in Dafny

This project models the parts of the service kit whose correctness is hardest to see from the
code, and proves what they are relied on for. Each file is one module.

- **JsonSchema, ComponentMatching, PrimaryEdges** give JSON values and schemas a meaning after
  JSON Schema Draft 2020-12 (Validation, sections 6.1.1 to 6.1.3, 6.3.2 and 6.5.3; Core, sections
  10.2.1.2, 10.2.1.3, 10.3.1.1, 10.3.1.2, 10.3.2.1 and 10.3.2.3), and prove the conservative schema matcher
  sound against it. **Bindings** builds on this: what binding admission accepts can never make a
  command, preset or button build an input that the declared action rejects, and when everything a
  command answers can be shown. The other half, what must be accepted, is in **MatchingLaws** for the
  matcher and in **AdmissionLaws** for bindings; **ShippedBindings** is the reminder package's own one.
- **HostContract** states the alias rules of the host contract over a small syntax tree and defines
  their least solution; **AliasAnalysis** is the analysis as the code runs it, with its growing
  sets, node stack and scope worklist, and computes that solution. **AliasLaws** says of the syntax
  which forms make an alias, and that every one of them is found.
- **JobLedger** is the record-then-emit protocol of the job core as a state machine over atomic
  transactions, an explicit row lock, publications with three outcomes, and crashes.
  **Reminders** continues from the fired job through outbox, stream and idempotent consumers.
  Both files state invariants over all runs; the classes beside them (`JobsController`, and
  `ReminderPackage` and `IdempotentConsumer` in **ReminderRuntime**) are the code's own loops and
  updates, tied to the same transactions. **JobHistory** and **ReminderHistory** trace whatever a run
  leaves behind to the step that asked for it. **Pipeline** joins both to the timer: from the slots any
  number of loops attempt to the one effect of a reminder, in one machine.
- **ChannelStore, ChannelRuntime** are the subscription, page and outbox tables of the channel
  package with the poller, **ChannelLaws** what they promise a subscriber, **ChannelNames** how a channel is written and stored; **Digest** is the paged digest of its service.
- **TimerGrid** is the timer loop over grids of slots, **Ranking** the weighted ranking over real
  arithmetic and **RankingLaws** what it measures, **WallTime** the resolution of local times with skipped and repeated hours.
- **TypeSpec, TypeSchemas** are the type shorthand, its printed form and the meaning of its JSON
  Schema rendering; **Stripping** is the removal of surrounding blanks.
- **EnvContract, PackageMerge** are the deterministic merges of environment contracts and of package
  declarations; **EnvLaws** and **MergeLaws** say what they come to in terms of the manifests.
- **Sorting** is Python's stable `sorted` and what the other modules rely on about it,
  **PythonValues** the values read from YAML and JSON with the equality Python compares them by.
  **Options** and **Publications** hold the few types several modules share.

## Assumptions

- Each number has one literal spelling, and the text the matcher compares values by is injective;
  equality inside a union is structural.
- A float read from YAML or JSON is a finite number. An entry written to a fragment is read back as
  it was written.
- A format accepts some set of values, the same in source and target. The reach of keywords the
  matcher does not know is a parameter of validity, so it can be anything.
- Name-based identifiers (section 4.3 of RFC 4122) are injective in the name they are made from.
- A committed database transaction is one atomic step, a refused or crashed one leaves no trace, and
  `FOR UPDATE` excludes other holders of the row. The stream may deliver any entry again, in any order.
- Clock readings, random identifiers, platform answers and publication outcomes are parameters.
- Instants are whole seconds in the channel, digest and ranking modules, and microseconds in the
  timer and wall-time modules; clocks are at or after the Unix epoch in the timer module.
- Half-life decay is any function into (0, 1] that strictly decreases.
- Around any wall time a zone changes its offset at most once within a day, and no offset reaches a day.
- Rendering an instant to the second is injective and of fixed width, and reading the arguments of a
  tick gives back the instant they were made from.
- In the pipeline, callers fire their jobs under identities that do not begin with `core-timer:`.
- Package manifests have passed their own validation, and active packages have distinct names.

## Model

| member | source | states |
|---|---|---|
| ComponentMatching.NormalizedKeepsMeaning | framework/component_matching.py:26-42 | normalizing a schema (dropping annotations, ordering `required`, `type` and `enum`) leaves the set of valid values unchanged |
| ComponentMatching.CompatibleIsSound | framework/component_matching.py:113-140 | when the recursive comparison succeeds, every value valid for the source is valid for the target, through nested objects, arrays, unions and value sets |
| ComponentMatching.ObjectMatchesIsSound | framework/component_matching.py:90-110 | the same for objects: required fields, named fields, closed and open objects |
| ComponentMatching.ValuesBound | framework/component_matching.py:82-87 | a valid value is among the values an `enum` and a `const` leave together |
| ComponentMatching.SupportedIsPlain | framework/component_matching.py:143-152 | a schema of the supported vocabulary has no keyword whose meaning the comparison ignores |
| ComponentMatching.MinLengthSplits | framework/component_matching.py:172-184 | taking `minLength` out and comparing it separately loses nothing |
| ComponentMatching.ArgumentMatchIsSound | framework/component_matching.py:172-184 | if a source matches an argument schema, every value of the source is acceptable to the argument |
| ComponentMatching.CompatibleWithItself | framework/component_matching.py:113-140 | the comparison accepts a schema against itself exactly when it is typed throughout or a union |
| ComponentMatching.CompatibleIsTransitive | framework/component_matching.py:113-140 | compatible schemas chain |
| ComponentMatching.ArgumentMatchIsTransitive | framework/component_matching.py:172-184 | an argument that may be passed on may be passed on again |
| MatchingLaws.TypedSchemasMatchExactly | framework/component_matching.py:113-184 | without a union, a match is reported exactly when both schemas are typed, within the vocabulary, of one type and format, the values and lengths of the source lie within those of the target, and items and fields match in turn |
| MatchingLaws.UnionsMatchExactly | framework/component_matching.py:113-122 | with a union, exactly when both are within the vocabulary and the same up to annotations, order and the length at the top |
| MatchingLaws.SupportedExactly | framework/component_matching.py:143-152 | a schema is supported exactly when every schema written in it uses known keywords only |
| MatchingLaws.ScalarsMatchExactly | framework/component_matching.py:172-184 | for schemas of type, format, enum, const and minLength: same type and format, no value and no length of the source outside the target's |
| MatchingLaws.MatchesItselfExactly | framework/component_matching.py:172-184 | a schema matches itself exactly when it is within the vocabulary and its normal form is typed throughout or a union |
| MatchingLaws.NarrowerSourceMatches | framework/component_matching.py:172-184 | a match is kept when the source has fewer values, a higher minLength or more required names |
| MatchingLaws.WiderTargetMatches | framework/component_matching.py:172-184 | and when the target has more values, a lower minLength or fewer required names |
| MatchingLaws.OptionalFieldMatches | framework/component_matching.py:90-110 | and when the target describes one more optional field that a closed source lacks, or a matching one |
| MatchingLaws.ArraysMatchExactly | framework/component_matching.py:132-137 | arrays match exactly as their items do |
| PrimaryEdges.UnwrappedCommutes | framework/component_matching.py:45-62 | normalizing before dropping null and unwrapping a one-member union is the same as normalizing after it |
| PrimaryEdges.PrimaryEdgeIsSound | framework/component_matching.py:155-169 | if the primary output of a function matches a parameter, every non-null output has the field and its value is valid for the parameter |
| PrimaryEdges.NonNullSchemaKeepsValues | framework/component_matching.py:45-62 | the non-null schema keeps every non-null value when no closing keyword stands beside an unwrapped union |
| PrimaryEdges.NonNullSchemaKeepsExactly | framework/component_matching.py:45-62 | in general a non-null value is kept exactly when the last `additionalProperties` among the schema and its unwrapped one-member unions admits it, beyond the names of the last `properties` among them |
| PrimaryEdges.NonNullSchemaCanLoseAValue | framework/component_matching.py:45-62 | a schema the catalog admits as a function output, and a valid value of it that the unwrapped schema refuses, show that the condition cannot be dropped |
| PrimaryEdges.UnwrappedHasLastLayers | framework/component_matching.py:45-62 | the unwrapped schema takes its `additionalProperties` and its property names from the last layer that has them |
| MatchingLaws.EdgesAreInferredExactly | framework/component_matching.py:155-169 | an edge is inferred exactly when, null taken off, the output is an object whose primary field is declared, required and matches the parameter, and the parameter says more than a type |
| MatchingLaws.SemanticExactly | framework/component_matching.py:69-79 | a schema suggests an edge exactly when a format, an enum or a const is reached in it through items, required fields or members |
| MatchingLaws.NullIsTakenOff | framework/component_matching.py:45-62 | what is left of a type with null, and of an anyOf or oneOf with null, is the schema itself |
| Bindings.ReferenceIsSound | framework/bindings.py:177-187 | an admitted reference can be looked up, and its value fits the schema it was admitted for |
| Bindings.ArgumentsAreSound | framework/bindings.py:197-205 | admitted arguments always build an object the input schema accepts, if it keeps to type, properties, required and additionalProperties |
| Bindings.ArgumentsFitExactly | framework/bindings.py:197-205 | for any object input, admitted arguments always build an object, and it is accepted exactly when the other keywords of the input accept it |
| Bindings.OtherKeywordsCanRefuse | framework/bindings.py:197-205 | a concrete input with an `anyOf` for which a call is admitted and always refused |
| Bindings.ButtonsReadItemFields | framework/bindings.py:25-30 | by the grammar of references, an admitted button reads fields of its item and nothing else |
| Bindings.ReplyIsSound | framework/bindings.py:208-218 | every displayed value is there, is text, and is an instant where a date is shown |
| Bindings.CallIsSound | framework/bindings.py:221-224 | an admitted call builds an acceptable input, and every valid answer of the action can be shown if the reply reads no field of it or the output is declared an object; for outputs of type, properties, required and additionalProperties exactly then |
| Bindings.RepliesCanBeShownExactly | framework/bindings.py:208-218 | the same condition for any admitted reply to one value, sufficient for every schema and exact for those of the four keywords |
| JsonSchema.ObjectsExactly | framework/bindings.py:208-224 | every valid value of a schema is an object if its `type` names no other type; for schemas of the four keywords only then |
| Bindings.NullableResultsEscapeAdmission | framework/bindings.py:208-224 | a concrete call with an output of type object or null that is admitted, and whose valid answer null cannot be shown |
| Bindings.ParserCallIsSound | framework/bindings.py:235-249 | the parser of a parsed command is always called with arguments it accepts |
| Bindings.ParsedAnswerIsComplete | framework/bindings.py:250-262 | a parser answer that is not null carries the text, the instant and a primary field that fits `remind_at` |
| Bindings.ParsedCommandIsSound | framework/bindings.py:250-262 | after the guard on empty text, the create call builds an acceptable input |
| Bindings.PresetIsSound | framework/bindings.py:263-276 | each preset offered for a null answer builds an acceptable input |
| Bindings.ListedCommandIsSound | framework/bindings.py:279-292 | the list call is acceptable; if the items are declared objects, or the listing does not look into them, every answered element behind the `prefixItems` can be filtered and shown, has the fields its buttons keep, and pressing them builds acceptable inputs |
| Bindings.ListingCanBeShownExactly | framework/bindings.py:279-292 | for a plain list of items described by the four keywords that condition is exact |
| Bindings.NullableItemsEscapeAdmission | framework/bindings.py:177-187 | a concrete listing of items of type object or null that is admitted, and whose valid answer `[null]` cannot be shown |
| Bindings.PrefixItemsEscapeAdmission | framework/bindings.py:279-292 | a concrete listing with `prefixItems` before items declared objects that is admitted, and whose valid answer `[null]` cannot be shown |
| Bindings.ButtonIsSound | framework/templates/codegen/bindings.py.j2:115-121 | pressing a button builds an acceptable input from the fields kept for it |
| Bindings.TextCommandIsSound | framework/bindings_v2.py:137-148 | a text command builds an argument object with exactly one field, the text, and its action accepts it |
| Bindings.EventIsSound | framework/bindings_v2.py:151-160 | an admitted event reply has its recipient, as text, and can be rendered, from every payload that is valid for the message |
| Bindings.AdmittedBindingIsSafe | framework/bindings.py:295-324 | no run of a command of an admitted binding of either version builds an input its action rejects, every reply of a command or an event can be shown, and so can every item of every list, given that the outputs whose fields a command reads, and the items a listing looks into, are declared objects, and lists have no `prefixItems` |
| AdmissionLaws.BindingsPiecewise | framework/bindings.py:295-324 | a binding is admitted exactly when it is one of the package and each of its commands and events would be alone |
| AdmissionLaws.CallsExactly | framework/bindings.py:221-224 | a call is admitted exactly when its action is declared, every argument is declared and stands for something that matches, every required one is given, and the reply can be shown |
| AdmissionLaws.RepliesExactly | framework/bindings.py:208-218 | a reply is admitted exactly when each part shows a required declared plain string, or an instant where there is a timezone |
| AdmissionLaws.TextCommandsExactly | framework/bindings_v2.py:137-148 | a text command is admitted exactly when it passes the text alone to a declared action that needs nothing else, and names errors of that action only |
| AdmissionLaws.TextIsPassedExactly | framework/bindings_v2.py:145 | a scalar parameter takes the user's text exactly when it is a string without format and fixed values that asks for one character at most |
| AdmissionLaws.ListingsExactly | framework/bindings_v2.py:122-134 | a listing is admitted exactly when its action answers an array without arguments, the filter value is valid for a required field, and items and buttons are admitted |
| AdmissionLaws.EventsExactly | framework/bindings.py:315-324 | an event reply is admitted exactly when the package publishes the event with a required plain-string recipient, and it goes there |
| AdmissionLaws.AdmissionStays | framework/bindings.py:190-194 | what is admitted stays admitted when the package declares more actions and events |
| ShippedBindings.DefaultIsAdmitted | packages/codegen-kit-reminders/codegen_kit_reminders/bindings/default.yaml:1-65 | the binding the reminder package ships is admitted against its manifest and the catalog's parser, and by no other package |
| HostContract.LeastSolution | framework/host_contract.py:557-611 | the specified attributes and lines satisfy every binding rule over the scope tree, and are contained in every other solution |
| HostContract.NamesIsLeastClosed | framework/host_contract.py:557-576 | the names of a scope are the least set that contains its start and is closed under the binding rules |
| HostContract.ParameterShadows | framework/host_contract.py:557-576 | whatever the enclosing scopes call by the name of a parameter has no effect on the names of its function, nor on anything found in it or in the scopes it defines |
| HostContract.UnboundParameterIsNoAlias | framework/host_contract.py:557-576 | a parameter that is not typed as the application, and that its function never binds to it, is no alias inside |
| HostContract.TreeGrows | framework/host_contract.py:506-516 | more attributes or inherited names never remove an alias or an access |
| AliasLaws.ApplicationsExactly | framework/host_contract.py:518-525 | an expression is the application exactly when it is `app`, `application`, an alias or an attribute of such a name, with any chain of attributes, subscripts and calls behind |
| AliasLaws.AnnotationsExactly | framework/host_contract.py:484-492 | an annotation names the type exactly as a name, an attribute or a text, dotted or not, with any subscripts |
| AliasLaws.TargetsExactly | framework/host_contract.py:533-555 | a statement binds a target exactly by assignment, tuple element, annotated assignment, walrus or `with` |
| AliasLaws.StartExactly | framework/host_contract.py:557-570 | a function starts from its parameters typed as the application and from what it inherits and no parameter shadows |
| AliasLaws.ScopeNodesExactly | framework/host_contract.py:495-503 | the nodes of a scope are those written in it outside nested scopes |
| AliasLaws.LinesExactly | framework/host_contract.py:593-611 | a line is found exactly when some scope of the module accesses the registry there through its names or an alias attribute |
| AliasLaws.AttributesExactly | framework/host_contract.py:593-611 | the alias attributes are exactly those some scope of the module binds |
| AliasLaws.BoundNameIsAlias | framework/host_contract.py:571-576 | whatever a statement of a scope binds to the application is an alias there, through aliases of aliases |
| AliasLaws.AliasIsFound | framework/host_contract.py:593-611 | wherever a scope of a module makes a name an alias, in any of the forms, each access through it in that scope is found |
| AliasLaws.NestedAliasIsFound | framework/host_contract.py:593-611 | and in the scopes nested in it, unless a parameter shadows the name or it is a class body's own |
| AliasLaws.AttributeAliasIsFound | framework/host_contract.py:593-611 | and through an attribute bound anywhere, everywhere in the module |
| AliasAnalysis.WalkScope | framework/host_contract.py:495-503 | the stack walk visits the nodes of a scope without entering nested scopes |
| AliasAnalysis.ApplicationAliases.Reaches | framework/host_contract.py:518-525 | whether an expression is the application, or an attribute or call that leads to it |
| AliasAnalysis.ApplicationAliases.Targets | framework/host_contract.py:533-555 | the targets a node binds to the application |
| AliasAnalysis.ApplicationAliases.BindNode | framework/host_contract.py:527-531 | binding one node only grows names and attributes, stays within every closed solution, and adds what the node binds |
| AliasAnalysis.ApplicationAliases.ScopeNames | framework/host_contract.py:557-576 | the passes end, with the least names of the scope and attributes that close it and are contained in every closing set |
| AliasAnalysis.ApplicationAliases.RegistryAccess | framework/host_contract.py:578-590 | whether a node touches the handler registry of an alias |
| AliasAnalysis.ScanScopes | framework/host_contract.py:593-611 | one pass of the scope worklist: what it finds is what its attributes derive, and nothing outside the least solution is added |
| AliasAnalysis.RegistryAccesses | framework/host_contract.py:593-611 | the analysis ends on every scope tree and returns exactly the lines of the least solution, strictly sorted, whichever pending scope is taken next |
| JobLedger.RunKeepsInv | template/services/backend/src/controllers/jobs.py:72-131 | in every interleaving of concurrent and crashing fires: rows, locks, attempts and stream agree and deliveries are conserved |
| JobLedger.RecordedRowsAreImmutable | template/services/backend/src/app/repositories/job_command.py:54-92 | a recorded row keeps its command, arguments and acceptance time for ever |
| JobLedger.EmissionsFollowTheirRows | template/services/backend/src/controllers/jobs.py:85-89 | no emission precedes its committed row, and each carries what the row recorded |
| JobLedger.OneEmitterPerCommand | template/services/backend/src/app/repositories/job_command.py:15-35 | at most one process per command is past the row lock |
| JobLedger.DispatchedIsTerminal | template/services/backend/src/app/repositories/job_command.py:99-104 | once dispatched, a row never changes and its command is not emitted by a later fire; dispatch implies a delivery |
| JobLedger.DeliveriesAreAccountedFor | template/services/backend/src/controllers/jobs.py:104-131 | with no attempt in flight, deliveries are one if dispatched plus the lost final commits plus the delivered publications reported as failed |
| JobLedger.FaultFreeRunsEmitOnce | template/services/backend/src/controllers/jobs.py:104-131 | without crashes and false failure reports a command is delivered at most once |
| JobLedger.JobsController.Record | template/services/backend/src/app/repositories/job_command.py:54-92 | the first fire of an identity creates its row, any later one gets the same row back |
| JobLedger.JobsController.Fire | template/services/backend/src/controllers/jobs.py:52-89 | 404 for an undeclared name and 422 for arguments its schema refuses, with nothing recorded; otherwise the table and the stream after a whole fire, for each outcome of the publication |
| JobLedger.FireFollowsTheProtocol | template/services/backend/src/controllers/jobs.py:72-131 | what one uninterrupted fire computes is what the protocol's steps do |
| JobHistory.EvidenceIsTrue | template/services/backend/src/controllers/jobs.py:52-66 | the evidence of a command: what some fire asked for, accepted when it was first recorded, and dispatched when a process committed whose publication had been accepted |
| JobHistory.EmissionsWereAsked | template/services/backend/src/controllers/jobs.py:134-155 | every emitted event is what some fire asked for, with the instant it was recorded at |
| JobHistory.StreamIsWhatWasDelivered | template/services/backend/src/controllers/jobs.py:134-155 | the stream holds one event for each publication that was not lost, in order and of its command |
| Reminders.RunKeepsInv | packages/codegen-kit-reminders/codegen_kit_reminders/runtime.py:33-121 | in every reachable state of concurrent ticks, cancellations, crashes and redeliveries, reminders, outbox rows, copies in flight, stream, markers and effects agree |
| Reminders.ConfirmAgrees | packages/codegen-kit-reminders/codegen_kit_reminders/runtime.py:85-102 | the two guarded updates of a confirmation take effect together or not at all, and keep reminder and outbox row in agreement |
| Reminders.TickAgrees | packages/codegen-kit-reminders/codegen_kit_reminders/runtime.py:33-64 | a tick makes exactly the reminders that were scheduled up to its instant due, each with a new outbox row of that instant, leaves every other one untouched, and nothing scheduled up to its instant |
| Reminders.CancelAgrees | packages/codegen-kit-reminders/codegen_kit_reminders/api.py:93-123 | a cancellation changes the reminder exactly when it is scheduled and the caller's, and nothing else ever |
| Reminders.RunOnlyGrows | packages/codegen-kit-reminders/codegen_kit_reminders/runtime.py:33-102 | identity and content of reminders and outbox rows never change; a cancelled reminder stays cancelled |
| Reminders.PublicationsAgree | packages/codegen-kit-reminders/codegen_kit_reminders/identity.py:6-9 | all publications of a reminder are one event, of one identity, never before `remind_at` |
| ReminderHistory.PublicationsWereAsked | packages/codegen-kit-reminders/codegen_kit_reminders/runtime.py:105-121 | every published event was asked for: an earlier request of its user, with its text and its time; and it occurred at the instant of a received tick |
| ReminderHistory.RemindersHaveHistory | packages/codegen-kit-reminders/codegen_kit_reminders/api.py:49-123 | every reminder is what its user asked for; it was cancelled by its user, became due and was emitted at the instants of the steps that did so |
| ReminderHistory.EffectsWereAsked | template/services/backend/src/core/idempotent_consumer.py:12-31 | whatever a consumer group took effect for was asked for |
| ReminderHistory.AskedOnce | packages/codegen-kit-reminders/codegen_kit_reminders/api.py:49-73 | a reminder is asked for once, so the request fixes the event |
| Reminders.EffectsHappenOnce | template/services/backend/src/core/idempotent_consumer.py:12-31 | in every run a consumer group commits at most one effect per reminder, and none for a cancelled one |
| Reminders.CancelledForGood | packages/codegen-kit-reminders/codegen_kit_reminders/api.py:93-123 | once cancelled, a reminder is never published and never has an effect |
| Reminders.EmittedReachesTheStream | packages/codegen-kit-reminders/codegen_kit_reminders/runtime.py:105-121 | a reminder recorded as emitted was published with the recorded identity |
| Reminders.ConsumptionTakesEffect | template/services/backend/src/core/idempotent_consumer.py:12-31 | after a group has consumed a publication it has exactly one effect of that reminder |
| ReminderRuntime.ReminderPackage.CreateReminder | packages/codegen-kit-reminders/codegen_kit_reminders/api.py:49-73 | a new scheduled reminder with the caller's text and instant |
| ReminderRuntime.ReminderPackage.CancelReminder | packages/codegen-kit-reminders/codegen_kit_reminders/api.py:93-123 | cancelled, not found (also another user's) or no longer cancellable, exactly when |
| ReminderRuntime.ReminderPackage.TransitionDue | packages/codegen-kit-reminders/codegen_kit_reminders/runtime.py:33-64 | the loop over the due rows equals one simultaneous transition of all of them |
| ReminderRuntime.ReminderPackage.ReadPending | packages/codegen-kit-reminders/codegen_kit_reminders/runtime.py:67-82 | exactly the unconfirmed outbox rows, once each, by occurrence and reminder, with their reminders' user, text and time |
| ReminderRuntime.ReminderPackage.EmitPending | packages/codegen-kit-reminders/codegen_kit_reminders/runtime.py:105-121 | whatever the publications come to: the pending rows, with their reminders' user, text and time, are published and confirmed in order, each at its own reading of the clock, up to the first that is not accepted; exactly that one and those after it stay pending, and it is in the stream if it was delivered all the same |
| ReminderRuntime.ReminderPackage.HandleJobFired | packages/codegen-kit-reminders/codegen_kit_reminders/runtime.py:124-132 | an uninterrupted tick leaves nothing scheduled up to its instant, and pending exactly the publication that was not accepted with those after it, so nothing if all were; other jobs are ignored |
| ReminderRuntime.IdempotentConsumer.ConsumeOnce | template/services/backend/src/core/idempotent_consumer.py:12-31 | marker and effect take place together; a repeated event or a failing effect changes nothing |
| ChannelStore.RunKeepsInv | packages/codegen-kit-tg-channels/codegen_kit_tg_channels/store.py:28-84 | in every reachable state at most fifty channels are subscribed, by known users only, and deliveries are of seen posts |
| ChannelStore.InsertAllKeepsBound | packages/codegen-kit-tg-channels/codegen_kit_tg_channels/store.py:28-53 | a committed insertion of a list subscribes to all of it, keeps what was there, and stays within the bound |
| ChannelStore.ListIsRefusedAtTheBound | packages/codegen-kit-tg-channels/codegen_kit_tg_channels/store.py:28-53 | inserting a list is refused exactly when its channels together with those subscribed exceed fifty, whatever its order and repetitions |
| ChannelStore.ContactIsRefusedAtTheBound | packages/codegen-kit-tg-channels/codegen_kit_tg_channels/store.py:28-40 | first contact is refused exactly when the starting list would exceed the bound, and otherwise adds exactly its channels |
| ChannelStore.AddIsRefusedAtTheBound | packages/codegen-kit-tg-channels/codegen_kit_tg_channels/store.py:42-59 | `add`, by a known user or at first contact, is refused exactly when the channels subscribed, the starting list of a new user and the channel itself exceed fifty together; a refusal changes nothing, a committed one leaves the channel in the list |
| ChannelStore.OnlyAddSubscribes | packages/codegen-kit-tg-channels/codegen_kit_tg_channels/store.py:55-84 | only a committed `add` puts a channel into the list of a known user |
| ChannelStore.RemovedStaysOut | packages/codegen-kit-tg-channels/codegen_kit_tg_channels/store.py:77-84 | a removed channel stays out of that user's list until a later `add` of it commits |
| ChannelStore.PagesMayBeMerged | packages/codegen-kit-tg-channels/codegen_kit_tg_channels/store.py:104-138 | accepting two successive pages is accepting them as one |
| ChannelStore.ReacceptingChangesNothing | packages/codegen-kit-tg-channels/codegen_kit_tg_channels/store.py:114-122 | a page accepted again, at any later instant, changes nothing |
| ChannelStore.FirstAppearanceDecides | packages/codegen-kit-tg-channels/codegen_kit_tg_channels/store.py:111-138 | the first appearance of a post, in change order, decides who gets it, those whose subscription to its channel began at most ten minutes after its date, and with what date and text |
| ChannelStore.SeenPostsAreSettledForGood | packages/codegen-kit-tg-channels/codegen_kit_tg_channels/store.py:114-138 | once a post was seen, no later page, edit or subscription adds, removes or changes a delivery of it |
| ChannelStore.EveryDeliveryWasDecided | packages/codegen-kit-tg-channels/codegen_kit_tg_channels/store.py:104-138 | in every run, each delivery stems from the poll that first saw its post, which was not deleted, has its date and text, and goes to a user whose subscription row was old enough then |
| ChannelLaws.PageDecides | packages/codegen-kit-tg-channels/codegen_kit_tg_channels/store.py:104-138 | of a page as the platform sent it, the item with the least change number decides: a user gets the post exactly if it is not deleted there and the subscription began at most ten minutes after its date |
| ChannelLaws.PostsAreDecidedForGood | packages/codegen-kit-tg-channels/codegen_kit_tg_channels/store.py:104-138 | and that is what every user has of the post in every later state of a run |
| ChannelLaws.PageLeaves | packages/codegen-kit-tg-channels/codegen_kit_tg_channels/store.py:111-122 | a page changes nothing for posts seen before, and shows nothing of channels nobody subscribes to |
| ChannelLaws.PollOutcome | packages/codegen-kit-tg-channels/codegen_kit_tg_channels/polling.py:21-65 | from which instant the platform is asked, what a conflict does, which failures stop polling, how long others wait, and what an accepted page sets |
| ChannelLaws.PollIsSkipped | packages/codegen-kit-tg-channels/codegen_kit_tg_channels/polling.py:39-45 | nothing happens once polling has stopped, before the retry time, or without subscriptions |
| ChannelLaws.SubscriptionsWereMade | packages/codegen-kit-tg-channels/codegen_kit_tg_channels/store.py:28-59 | every subscription was made by a step of its user, `add` or first contact with the starting list, at the instant it is recorded with |
| ChannelLaws.SubscriptionsStay | packages/codegen-kit-tg-channels/codegen_kit_tg_channels/store.py:55-84 | and stays, as of that instant, until its user removes this channel |
| ChannelLaws.EmissionsWereConfirmed | packages/codegen-kit-tg-channels/codegen_kit_tg_channels/store.py:153-158 | an emitted delivery was confirmed by a step of the run, at the instant it says |
| ChannelLaws.BatchGoesFirst | packages/codegen-kit-tg-channels/codegen_kit_tg_channels/store.py:140-151 | a batch holds unconfirmed deliveries as decided, once each and in order, two hundred at most; what it leaves out comes later, and only if it is full |
| ChannelLaws.ConfirmingSets | packages/codegen-kit-tg-channels/codegen_kit_tg_channels/store.py:153-158 | confirming a batch sets the time of exactly its deliveries |
| ChannelStore.PollMovesForward | packages/codegen-kit-tg-channels/codegen_kit_tg_channels/polling.py:34-65 | over any run, whatever the clock reads: the watermark never moves back, and once polling has stopped its state is final and no post is seen and no delivery added any more |
| ChannelStore.CursorHasItsPage | packages/codegen-kit-tg-channels/codegen_kit_tg_channels/store.py:104-138 | the cursor stored in a reachable state was committed by a poll of the run together with the posts of its page |
| ChannelStore.SeedIsRefusedExactly | packages/codegen-kit-tg-channels/codegen_kit_tg_channels/store.py:160-173 | a starting list is refused exactly when a name cannot be read or its distinct channels exceed fifty, however often each is written; otherwise the sorted list of them is stored, unless there is one |
| ChannelNames.UsernameIsExact | packages/codegen-kit-tg-channels/codegen_kit_tg_channels/service.py:22-30 | a text is read as a channel exactly when it is that name in any case, behind one of the prefixes or none, with blanks around: so as at most one |
| ChannelNames.UsernameIsCanonical | packages/codegen-kit-tg-channels/codegen_kit_tg_channels/service.py:22-30 | the stored name is read as itself |
| ChannelNames.ReadUsername | packages/codegen-kit-tg-channels/codegen_kit_tg_channels/service.py:22-30 | the loop over the prefixes stops at the first that fits |
| ChannelRuntime.Store.Insert | packages/codegen-kit-tg-channels/codegen_kit_tg_channels/store.py:42-53 | the bound check and the insert, or a refusal |
| ChannelRuntime.Store.Initialize | packages/codegen-kit-tg-channels/codegen_kit_tg_channels/store.py:28-40 | the loop over the starting list, once per user |
| ChannelRuntime.Store.Add | packages/codegen-kit-tg-channels/codegen_kit_tg_channels/store.py:55-59 | the committed tables, or the tables as they were |
| ChannelRuntime.Store.List | packages/codegen-kit-tg-channels/codegen_kit_tg_channels/store.py:61-75 | the user's channels, ordered and once each |
| ChannelRuntime.Store.Remove | packages/codegen-kit-tg-channels/codegen_kit_tg_channels/store.py:77-84 | the committed tables, or the tables as they were |
| ChannelRuntime.Store.SeedStartingList | packages/codegen-kit-tg-channels/codegen_kit_tg_channels/store.py:160-173 | the list as written is read, its channels are stored sorted and once each, a refusal leaves the tables alone, and the first stored list is never replaced |
| ChannelRuntime.Store.AcceptPage | packages/codegen-kit-tg-channels/codegen_kit_tg_channels/store.py:104-138 | both loops: posts in change order, subscribers of each |
| ChannelRuntime.Store.Pending | packages/codegen-kit-tg-channels/codegen_kit_tg_channels/store.py:140-151 | the first two hundred unconfirmed deliveries by occurrence and identity |
| ChannelRuntime.ShortBatchEmptiesOutbox | packages/codegen-kit-tg-channels/codegen_kit_tg_channels/store.py:140-158 | confirming a batch of fewer than two hundred leaves nothing pending |
| ChannelRuntime.Poller.Poll | packages/codegen-kit-tg-channels/codegen_kit_tg_channels/polling.py:34-65 | the polling state machine: retry, stop, conflict restart, accepted page |
| ChannelRuntime.Poller.EmitPending | packages/codegen-kit-tg-channels/codegen_kit_tg_channels/polling.py:67-75 | accepted publications are confirmed in order; the one that fails, and those after it, stay pending |
| ChannelRuntime.Poller.Tick | packages/codegen-kit-tg-channels/codegen_kit_tg_channels/polling.py:77-81 | waiting deliveries go out before the platform is asked; for any outcome of the publications of both batches, the tables and the stream: a failure before the poll ends the tick without asking, one after it leaves the polled page and confirms what went out before it |
| Digest.LatestIsLatest | packages/codegen-kit-tg-channels/codegen_kit_tg_channels/service.py:92-96 | the running fold keeps, per channel and post, the first item with the highest change number |
| Digest.DigestIsUnique | packages/codegen-kit-tg-channels/codegen_kit_tg_channels/service.py:105-110 | the specification of a digest (newest twenty, deleted dropped, each identity once) determines it |
| Digest.DigestShowsTheNewest | packages/codegen-kit-tg-channels/codegen_kit_tg_channels/service.py:105-110 | twenty posts at most, newest first, each as the feed last told it; one that stands is only missing behind twenty no older |
| Digest.PageBoundariesDoNotMatter | packages/codegen-kit-tg-channels/codegen_kit_tg_channels/service.py:90-99 | two page sequences with the same concatenated feed give the same digest |
| Digest.DigestOf | packages/codegen-kit-tg-channels/codegen_kit_tg_channels/service.py:80-110 | a feed that ends within twenty requests gives its digest; a platform failure its error; otherwise try later |
| TimerGrid.SlotContainsNow | template/services/backend/src/app/timers.py:33-37 | the slot of an instant is the one grid point with slot <= now < slot + period |
| TimerGrid.SlotsStrictlyIncrease | template/services/backend/src/app/timers.py:101-114 | whatever the clock does, the attempted slots of a job strictly increase and the last is remembered |
| TimerGrid.SlotsComeFromTheClock | template/services/backend/src/app/timers.py:101-114 | every attempted slot contained a reading of the clock |
| TimerGrid.NextReading | template/services/backend/src/app/timers.py:136-140 | sleeping for the returned wait never skips a slot and reaches a new one at its start |
| TimerGrid.EverySlotOnce | template/services/backend/src/app/timers.py:136-140 | with exact sleeps and instant fires, a job attempts every slot from its start to the current one exactly once |
| TimerGrid.TimeGoesOn | template/services/backend/src/app/timers.py:136-140 | the loop gets past any instant |
| TimerGrid.CommandIdIsInjective | template/services/backend/src/app/timers.py:44-47 | the command identity stands for one job and one slot |
| TimerGrid.FiresHaveTheirOwnIdentity | template/services/backend/src/app/timers.py:44-59 | no two fires of a job in a run share a command identity |
| TimerGrid.TimerLoop.FireDue | template/services/backend/src/app/timers.py:101-114 | every timer with an unattempted slot fires once; the returned wait is positive and the least |
| TimerGrid.TimerLoop.Run | template/services/backend/src/app/timers.py:136-140 | the loop with exact sleeps produces the clock readings and fires the results are about |
| Pipeline.LoopsFireSlots | template/services/backend/src/app/timers.py:101-114 | every fire of a loop is the slot of one of its timers at one of its readings, so a step of the joined machine |
| Pipeline.RunKeepsInv | packages/codegen-kit-reminders/codegen_kit_reminders/runtime.py:124-132 | in every reachable state of timers, callers, ledger and reminder package together: both keep their invariants, attempted slots had begun, and every instant the package works with is that of a tick in the job stream |
| Pipeline.OneSlotOneRow | template/services/backend/src/app/timers.py:50-72 | however many loops attempt a slot, however often, the ledger has at most one row with its fire, only if it was attempted, and every `job_fired` of its identity is the same event, which carries the slot |
| Pipeline.OneSlotOneEffect | packages/codegen-kit-reminders/codegen_kit_reminders/runtime.py:33-132 | a consumer group that has an effect of a reminder has exactly one, from the one event all its publications are, which carries the instant of a published tick; if nobody but the timer ticks, that is an attempted slot that had begun when it was attempted, so no reminder comes early |
| Ranking.MaximumIsMaximum | packages/codegen-kit-ranking/codegen_kit_ranking/scoring.py:31-42 | the maximum of a metric is reported by someone and exceeded by nobody, and zero when nobody reports it |
| Ranking.ScoreIsAMean | packages/codegen-kit-ranking/codegen_kit_ranking/scoring.py:86-109 | the score is the weighted mean of the criteria that have data and weight, so it lies wherever they all lie; with none it is zero |
| Ranking.CriterionIsAShare | packages/codegen-kit-ranking/codegen_kit_ranking/scoring.py:64-83 | each criterion lies between zero and one |
| RankingLaws.ScoresMeasure | packages/codegen-kit-ranking/codegen_kit_ranking/scoring.py:31-83 | when each criterion is measured and what: a metric's share times its maximum is the reported value, the keyword share times the number of keywords is the number of positions mentioned, freshness is the decay of the age |
| RankingLaws.ScoreIsWeighed | packages/codegen-kit-ranking/codegen_kit_ranking/scoring.py:86-109 | the score times the weights of what is measured is the sum of the measures, each by its own weight |
| RankingLaws.RankingIsScored | packages/codegen-kit-ranking/codegen_kit_ranking/scoring.py:112-115 | the ranking is every publication with such a score, by score, date and identifier |
| RankingLaws.MoreViewsStandBefore | packages/codegen-kit-ranking/codegen_kit_ranking/scoring.py:64-109 | alike but for views, the one with more stands before the other when views have weight |
| RankingLaws.MoreReactionsStandBefore | packages/codegen-kit-ranking/codegen_kit_ranking/scoring.py:64-109 | the same for reactions |
| RankingLaws.MoreForwardsStandBefore | packages/codegen-kit-ranking/codegen_kit_ranking/scoring.py:64-109 | the same for forwards |
| RankingLaws.MoreKeywordsStandBefore | packages/codegen-kit-ranking/codegen_kit_ranking/scoring.py:52-83 | alike but for the text, the one that mentions more keywords stands before the other when keywords have weight |
| RankingLaws.FresherStandsBefore | packages/codegen-kit-ranking/codegen_kit_ranking/scoring.py:45-49 | alike but for the date, the later one stands before the other |
| Ranking.RankingIgnoresArrangement | packages/codegen-kit-ranking/codegen_kit_ranking/scoring.py:153-191 | the ranking of distinct publications does not depend on the order they are supplied in |
| Ranking.RankingIsComplete | packages/codegen-kit-ranking/codegen_kit_ranking/scoring.py:153-191 | the ranking is ordered, has every publication, and each score is in [0, 1] and the sum of its contributions |
| Ranking.WeightsAreProportions | packages/codegen-kit-ranking/codegen_kit_ranking/scoring.py:95-104 | scaling all weights by a positive factor changes nothing |
| Ranking.MissingDataIsNotPunished | packages/codegen-kit-ranking/codegen_kit_ranking/scoring.py:3-7 | the weight of a criterion without data has no say |
| Ranking.FresherRanksAhead | packages/codegen-kit-ranking/codegen_kit_ranking/scoring.py:45-49 | of two publications alike but for their dates the later one ranks ahead |
| Ranking.MetricMaxima | packages/codegen-kit-ranking/codegen_kit_ranking/scoring.py:31-42 | the loops compute the maxima |
| Ranking.CriterionScores | packages/codegen-kit-ranking/codegen_kit_ranking/scoring.py:64-83 | exactly the criteria the publication carries data for, with their scores |
| Ranking.RankOne | packages/codegen-kit-ranking/codegen_kit_ranking/scoring.py:86-109 | score and contributions of one publication |
| Ranking.RequireUnique | packages/codegen-kit-ranking/codegen_kit_ranking/scoring.py:118-128 | refuses exactly repeated identifiers |
| Ranking.Rank | packages/codegen-kit-ranking/codegen_kit_ranking/scoring.py:153-191 | the refusals in their order, otherwise the ranking cut at the limit |
| Ranking.Cut | packages/codegen-kit-ranking/codegen_kit_ranking/scoring.py:191 | a limit gives a prefix of the unlimited result |
| TypeSpec.ParseIsExact | framework/spec/types.py:264-292 | the shorthand parser accepts exactly the language of primitives, lists and dicts with blanks around the dict parts, and reads each string as one type |
| TypeSpec.ParseIsComplete | framework/spec/types.py:279-289 | the split at the first comma is right because keys are primitive |
| TypeSpec.ParsePrint | framework/spec/types.py:164-168 | parsing the printed form of a type returns the type, whatever blanks follow the commas |
| TypeSpec.PrintParse | framework/spec/types.py:264-292 | every accepted string, its blanks removed, is the printed form of its parse |
| TypeSchemas.SchemaMeansType | framework/spec/types.py:179-211 | the JSON Schema rendered for a type accepts exactly the values of the type |
| EnvContract.MergeFragments | framework/contracts/env_contract.py:192-214 | the merge succeeds exactly when the declarations of every variable are equal as Python compares them, and keeps of each the one of the last owner; a refusal names a real conflict |
| EnvContract.AgreementIgnoresArrangement | framework/contracts/env_contract.py:192-214 | whether the merge succeeds, which variables it has, and its entries up to Python's equality depend on neither order, repetition nor ownership |
| EnvContract.MergeIsExactlyWhatIsDeclared | framework/contracts/env_contract.py:206-214 | a successful merge is exactly what is declared if and only if no variable has two equal literals of different number type (or zeros of different sign) |
| EnvContract.ArrangementDoesNotMatter | framework/contracts/env_contract.py:197-214 | order, repetition and ownership have no say in a successful merge if and only if the same condition holds; where it fails, new owners alone change the artifact |
| EnvContract.OwnersDecideTheSpelling | framework/contracts/env_contract.py:203-214 | a literal `1` of one owner and `true` of another merge without conflict, and which of them the artifact has is decided by the owners' names |
| PythonValues.EqualIsIdentical | framework/contracts/env_contract.py:21 | values equal in Python are the same value exactly when their numbers have the same types |
| EnvContract.Requirements | framework/generators/package_environment.py:94-114 | the fold succeeds exactly when no variable has two platform sources, and sums up obligation, owners and source |
| EnvContract.NeedsIgnoreOrder | framework/generators/package_environment.py:94-114 | the requirements are the same in any order of packages |
| EnvContract.EntriesFor | framework/generators/package_environment.py:158-187 | generation succeeds exactly when every product entry to be reused meets its need |
| EnvContract.GeneratedIsUnique | framework/generators/package_environment.py:160-186 | the generated entries are determined by the needs and the product contract |
| EnvContract.GeneratedMeetsNeeds | framework/generators/package_environment.py:74-92 | every generated entry meets its requirement and is valid |
| EnvContract.GeneratedMergesBack | framework/generators/package_environment.py:131-192 | whatever its owner is called, the generated fragment merges back without conflict, adds exactly the missing requirement names and changes no product entry |
| EnvContract.RegeneratingIsAFixedPoint | framework/generators/package_environment.py:131-192 | generating again over the generated entries is not refused, and those entries are its only outcome |
| EnvContract.Generate | framework/generators/package_environment.py:131-192 | the order of the refusals and the result of a whole generation |
| EnvLaws.GeneratedServesEveryPackage | framework/generators/package_environment.py:131-192 | an entry for every variable some package requires and no other, the product's own or a new one as described, that serves every requirement of every package |
| EnvLaws.ReuseIsRefusedExactly | framework/generators/package_environment.py:74-92 | generation is refused for the product's declarations exactly when one cannot serve a requirement: an environment, the backend, the obligation or the platform source |
| EnvLaws.SourcesConflictExactly | framework/generators/package_environment.py:94-114 | and for the packages' sources exactly when two require one variable from different ones |
| EnvLaws.JoinedIs | framework/generators/package_environment.py:167-172 | the names of the packages in a description are separated by a comma and a blank |
| WallTime.ResolveWall | packages/codegen-kit-textparse/codegen_kit_textparse/__init__.py:45-55 | a wall time is admitted exactly when it identifies one instant; the answer is that instant |
| WallTime.InstantsComeFromFolds | packages/codegen-kit-textparse/codegen_kit_textparse/__init__.py:48-52 | the instants of a wall time are those the two folds propose and that convert back |
| WallTime.RefusedAroundAChange | packages/codegen-kit-textparse/codegen_kit_textparse/__init__.py:53-54 | around a change of offset the refused wall times are exactly those it skips or repeats |
| WallTime.LaterDayIsLater | packages/codegen-kit-textparse/codegen_kit_textparse/__init__.py:66-74 | an admitted wall time of a later local day lies in the future, whatever the offsets do in between |
| WallTime.HourOfDayExactly | packages/codegen-kit-textparse/codegen_kit_textparse/__init__.py:58-65 | AM means the hour before noon and PM the one after it, for one to twelve; without either, the hour as it is |
| WallTime.WallTimeShows | packages/codegen-kit-textparse/codegen_kit_textparse/__init__.py:45-48 | a wall time has the day, hour and minute it was made from and nothing behind them |
| WallTime.ResolveAbsolute | packages/codegen-kit-textparse/codegen_kit_textparse/__init__.py:58-74 | today's instant when it is ahead, else tomorrow's, exactly; an answer always lies strictly ahead |
| WallTime.Resolve | packages/codegen-kit-textparse/codegen_kit_textparse/__init__.py:77-87 | a relative form counts forward from now; every answer is strictly after now |
| WallTime.OneChangeIsRegular | packages/codegen-kit-textparse/codegen_kit_textparse/__init__.py:45-55 | a zone with any one change of offset under a day meets the assumption |
| PackageMerge.Merger.ClaimName | framework/spec/loader.py:237-251 | a free name gets its owner, a taken one an error naming both |
| PackageMerge.Merger.MergeDecls | framework/spec/loader.py:347-360 | the loops over settings and jobs keep the registries exact |
| PackageMerge.Merger.MergeTimers | framework/spec/loader.py:361-364 | a timer is scheduled when its job has become its package's own |
| PackageMerge.Merger.MergePackageNames | framework/spec/loader.py:328-364 | schema, required capabilities, settings, jobs and timers of one package |
| PackageMerge.Merger.PublishModel | framework/spec/loader.py:282-294 | a message model has one owner and, as Python compares it, one schema; the first stands |
| PackageMerge.Merger.MergePackageEvents | framework/spec/loader.py:254-294 | claims, bindings and models of the published events of one package |
| PackageMerge.Merger.ValidateConsumers | framework/spec/loader.py:297-325 | each consumed event must be published with the expected message, as Python compares schemas |
| PackageMerge.Merger.Merge | framework/spec/loader.py:377-447 | the error list is empty exactly when all declarations are consistent, and then the merged maps are exactly what is declared |
| PackageMerge.ValidateAndMerge | framework/spec/loader.py:377-447 | the same for a whole set of specs, from its service capabilities on |
| PackageMerge.OrderDoesNotMatter | framework/spec/loader.py:422-446 | consistency does not depend on the order of the packages |
| PackageMerge.OutcomeIgnoresOrder | framework/spec/loader.py:422-446 | nor do the owners of all names, the merged schemas, event bindings and timers, the message models and their owners |
| PackageMerge.FirstIgnoresOrder | framework/spec/loader.py:282-294 | all publications of a model are one package's, so the one that stands is the same in any order of the packages |
| PackageMerge.TimerHasOwnJob | framework/spec/loader.py:361-364 | every timer belongs to a job its own package has claimed |
| MergeLaws.ClaimsExactly | framework/spec/loader.py:377-447 | the names that are claimed are those the core, services, shared events and packages declare, each by its declarer, behind the package's prefix where it has one, with its schema or binding |
| MergeLaws.ConsistentExactly | framework/spec/loader.py:377-447 | the specs are in order exactly when names are claimed once, needs are offered, models have one package and schema, and consumers find a declared event that fits |
| MergeLaws.NamesHaveOneDeclarer | framework/spec/loader.py:237-251 | in consistent specs every name has one declarer |
| MergeLaws.PackagesAreSeparate | framework/spec/loader.py:231-235 | no two packages declare one setting, job, event, capability or schema, also where their names give one prefix |
| MergeLaws.SchemasAreDeclared | framework/spec/loader.py:347-360 | the merged schemas are exactly those declared |
| MergeLaws.OwnersAreDeclarers | framework/spec/loader.py:237-251 | the owner of a name is the one that declares it |
| MergeLaws.BindingsAreDeclared | framework/spec/loader.py:254-294 | the merged event bindings are exactly those declared |
| MergeLaws.TimersAreDeclared | framework/spec/loader.py:361-364 | the merged timers are exactly those declared |

## Findings

Where the code does not do what it promises: a concrete input, and the condition under which it does.

| location | as written | input | intended | confidence |
|---|---|---|---|---|
| framework/contracts/env_contract.py:206-212 | declarations are compared by Python's equality and the last owner's stands, so the names of the owners can decide which literal the artifact has | owner `a` declares the literal `1` and owner `b` the same entry with `true`; then the owners exchanged (EnvContract.OwnersDecideTheSpelling) | identical declarations, whose owners have no say (lines 197-202); holds if and only if the equal literals of each variable have one number type (EnvContract.ArrangementDoesNotMatter) | proved for all fragments |
| framework/component_matching.py:53-61 | the member of an unwrapped one-member union replaces the sibling `properties` and leaves the sibling `additionalProperties` | an output closed over `a` and `b` beside `anyOf` of an object with `b` and null, and the value with both (PrimaryEdges.NonNullSchemaCanLoseAValue) | every non-null value is kept (line 46); holds if and only if the last `additionalProperties` admits the value beyond the last `properties` (PrimaryEdges.NonNullSchemaKeepsExactly); inferred edges are sound all the same (PrimaryEdges.PrimaryEdgeIsSound) | proved for all schemas and values |
| framework/bindings.py:197-205 | arguments are admitted by `properties` and `required` of the input alone | an input with `anyOf` of two required alternatives, and a call without arguments (Bindings.OtherKeywordsCanRefuse) | an admitted call is not refused; holds if and only if the other keywords of the input accept the arguments (Bindings.ArgumentsFitExactly) | proved for all object inputs |
| framework/bindings.py:279-292 | the items of a list output are described by `items` alone | `prefixItems` of null before items that are objects, and the answer `[null]` (Bindings.PrefixItemsEscapeAdmission) | every item of a valid answer can be shown; holds for the elements behind the `prefixItems` if the items are declared objects or the listing does not look into them (Bindings.ListedCommandIsSound) | proved for all outputs; the condition is sufficient |
| framework/bindings.py:177-187 | a field of an item is admitted by `properties` and `required`, whatever else `type` allows | items of type object or null with a required title, and the answer `[null]` (Bindings.NullableItemsEscapeAdmission) | every item of a valid answer can be filtered, shown and acted on; for plain lists of items of type, properties, required and additionalProperties this holds if and only if the listing does not look into its items or `type` names objects only (Bindings.ListingCanBeShownExactly) | proved both ways for these lists; sufficient for all |
| framework/bindings.py:208-224 | a field of a result is admitted in the same way | an output of type object or null with a required title, a reply with the title, and the answer null (Bindings.NullableResultsEscapeAdmission) | every valid answer can be shown; for outputs of the four keywords this holds if and only if the reply reads no field of the result or `type` names objects only (Bindings.RepliesCanBeShownExactly) | proved both ways for these outputs; sufficient for all |

## Left out

- Bindings.ListedCommandIsSound: elements that `prefixItems` describes are not covered, since admission does not look at it (Bindings.PrefixItemsEscapeAdmission); nor are items that need not be objects where the listing looks into them (Bindings.NullableItemsEscapeAdmission).
- Bindings.AdmittedBindingIsSafe: action inputs are limited to type, properties, required and additionalProperties, outputs whose fields are read and items that are looked into to declared objects, and lists to those without `prefixItems`; beyond each of these the promise fails (Bindings.OtherKeywordsCanRefuse, Bindings.NullableResultsEscapeAdmission, Bindings.NullableItemsEscapeAdmission, Bindings.PrefixItemsEscapeAdmission).
- Bindings.RepliesCanBeShownExactly: for outputs with keywords beyond the four only the sufficient direction is claimed.
- Bindings.ListingCanBeShownExactly: for lists and items with keywords beyond those named only the sufficient direction is claimed.
- AdmissionLaws.BindingsPiecewise: what a parsed command must meet is stated as the code checks it; of these only the shipped one is proved admitted.
- ShippedBindings.DefaultIsAdmitted: labels, help texts and preset times are not part of a binding here.
- AliasAnalysis.RegistryAccesses: syntax nodes are those the rules tell apart; every other node is its children.
- ChannelRuntime.Poller.EmitPending: one call of it alone; interleavings of several workers are in the reminder protocol only.
- Ranking.Rank: rounding of floating-point numbers and the refusal of a moment without a zone are not modelled.
- EnvContract.MergeFragments: which of several conflicts is named first is not fixed, since the entries of a fragment are not ordered here.
- PackageMerge.Merger.Merge: core settings are claimed like any other name instead of being written first without a check; their names are distinct, so this is the same.
- PackageMerge.ValidateAndMerge: two services providing one capability is not an error in the code, and is none here.
- JobLedger.JobsController.Fire: the JSON Schema of a job is the set of arguments it accepts.
- Pipeline.OneSlotOneRow: a caller that uses an identity of the timer first decides what its row says; such runs are excluded here, and only the ledger's own results cover them.
- ReminderRuntime.ReminderPackage.EmitPending: one call of it alone; crashes between its steps and other workers are in the reminder protocol.
- Boolean subschemas inside `properties`, `anyOf` and `oneOf` are not represented; the code assumes objects there.
- The check for duplicate button labels, and which edges are merely suggested by semantic annotations.
- The texts of error messages, and which error comes first where several apply, unless a contract says so.
- The text view of a post with its link and date format.
- Package startup, HTTP clients, capability headers, settings storage, migrations and logging.
- Subprocess, version control, archive and file handling, and rendering of generated files.
- Recognising a time expression in a text: its parsed fields are the input here.
- The range limits of Python's date type and its errors past them.
- The Python and TypeScript renderers of types, apart from the bracketed form; the TypeScript one adds no parentheses around a union, so it is not claimed to preserve meaning.
- Timers do not replay a slot that was missed while the process was down, so nothing is claimed about such slots.

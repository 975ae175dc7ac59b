# Verified model of the GIS agent's planning, streaming and approval core

This project models, in Dafny, the parts of the GIS agent whose correctness does
not follow from reading one function: the operation-plan compiler with its guard
and its scheduler, the message stream and the feeds beside it, plan approval with
the task graph that carries a plan out, the revision chain of a task
specification, and the confidence score that drives the assistant's answers. Each
source file has its own module. Code that loops or updates state is a method or a
class method proved against a function of the same step; what the system promises
is then proved about that function, for every input, run or interleaving. A
protocol between threads or transactions is a state machine over its steps.

`dafny verify dfyconfig.toml` checks everything.

## Modules

- `StepGraph` – dependency graphs with repeated edges and unknown steps: paths,
  cycles, and which steps can ever run.
- `TopologicalSort`, `CycleDetection`, `PassScheduler` – the three graph
  algorithms: Kahn's sort, the depth-first search, the sweeps over a pending list.
- `OperationRegistry`, `OperationPlan`, `PlanBuilder`, `PlanGuard`, `Pipeline` –
  the typed operations, the compiler, the guard, and the scheduling loops.
- `GuardMeaning`, `PlanWiring`, `DryRun` – what the guard's verdicts, the compiler's
  wiring and a run of the pipeline mean, said without their own predicates and helpers.
- `PlanTheorems`, `PlanRuntime`, `PlanListings` – what the guard says about compiled
  plans, and which refs a node finds when it starts, in one listing order and in all.
- `Text`, `SseParser`, `Sse`, `SseClient`, `MessageStream`, `StreamTheorems`,
  `EventFeed`, `MessagePages` – the frames and their decoder, the worker and generator
  behind them and how the caller ends, the event cursor, and keyset pagination.
- `TaskState`, `TaskGraph`, `PlanApproval`, `TaskRun`, `DeliveryEnds`,
  `DeliveryTheorems`, `PlanProvenance`, `StepStories` – status tables, graph nodes and
  routes, plan requests, the task's row as a class, how one delivery ends, what holds
  over all sequences of requests and deliveries, where the plan that is carried out
  comes from, and what becomes of every step.
- `SpecMerge`, `Revisions` – merging of nested specifications, and revisions made
  by interleaved transactions.
- `Confidence`, `ResponsePolicy` – the bounded score, and the decision it drives.

## What the proofs show about the code

Some properties one might expect do not hold of the code as it is; each is stated
with a concrete input or its exact condition.

- A plan the guard accepts need not find its refs at run time: the guard resolves
  refs in Kahn order and without surrounding blanks, the pipeline in list order and
  as they are spelt (`AcceptedRefMayBeMissing`, `AcceptedPaddedRefIsMissing`). It
  finds them if and only if every ref the guard resolved to an output is
  registered, in the very same text, by a node scheduled before its reader
  (`FindsRefsIff`); whether it does so in every order in which the nodes may be
  listed is decided by the producer being a transitive dependency of the reader
  (`FoundInEveryListingIff`), which the compiler guarantees.
- The event feed is complete if and only if rows become visible in id order; a row
  committed late with a smaller id is never sent (`FeedIsCompleteIff`,
  `LateRowIsLost`).
- `merge_dicts` is associative exactly when no leaf in the second argument wipes
  out something of the first that the third would have kept (`AssociativeIff`).
- A further revision can lower the confidence: one with a new value does so exactly
  from the fifth entry on, while at most four distinct values have been seen and the
  weighted sums are not both cut off at the same bound (`NewValueLowersExactly`);
  four agreeing revisions and a fifth that differs take it from 0.86 to 0.83
  (`ChangeOfMindLowers`).
- A delivery leaves a terminal task alone only under the condition of
  `TerminalStaysIff`; otherwise a finaliser forces another status. For a job that
  went through approval the condition always holds, so its end is final
  (`TerminalIsForever`).
- A job delivered again to a task left running by a dead worker can still succeed if
  and only if no planned step has already succeeded or failed, because a finished
  step refuses to start again (`RedeliveryRecoversIff`). In the files-only plan a
  worker that dies inside the pipeline step leaves a task that can be finished, one
  that dies right after it leaves a task that every later delivery fails
  (`WhereTheWorkerDies`).
- A step whose tool fails is marked failed (`FailedToolFailsItsStep`), but one refused
  before its tool starts, by a limit or by its own decision, is not: the job fails
  with that step still pending (`ApprovedJobTells`), and what is marked is the step the
  task stands at, if that one is still open (`RefusalBlamesThePlace`).
- A caller gets its answer only if the worker also queued `done`: one that dies between
  the message and `done` leaves the caller with an error (`ClientEndsSo`).
- Asking for queue emptiness before thread liveness would lose an answer
  (`EmptinessFirstLosesTheAnswer`); the code asks in the other order.

## Model

| member | source | states |
|---|---|---|
| StepGraph.RankIsChainLength | packages/domain/services/processing_pipeline.py:858-869 | a step can run within n rounds exactly if all its dependencies are known and no dependency chain from it has more than n edges |
| StepGraph.CanRunIffNotDoomed | packages/domain/services/processing_pipeline.py:858-869 | a step can ever run exactly if it reaches neither a cycle nor an unknown step |
| StepGraph.AcyclicIffAllRun | packages/domain/services/plan_guard.py:35-53 | a closed graph has no cycle exactly if every step can run |
| CycleDetection.CycleSearch.Walk | packages/domain/services/plan_guard.py:39-51 | a hit means a real cycle; otherwise the step is visited, everything visited is free of cycles, and the set of steps being visited is restored |
| CycleDetection.DetectCycle | packages/domain/services/plan_guard.py:35-53 | terminates and returns true if and only if some step transitively depends on itself |
| TopologicalSort.BuildChildren | packages/domain/services/plan_guard.py:64-69 | the reversed adjacency lists hold a step once for every time it names the dependency |
| TopologicalSort.ReleaseChildren | packages/domain/services/plan_guard.py:76-79 | decrementing in-degrees with multiplicity queues exactly the steps whose last missing dependency was just emitted, in plan order |
| TopologicalSort.FindRoots | packages/domain/services/plan_guard.py:71-71 | the start queue is the steps without dependencies, in plan order |
| TopologicalSort.Sort | packages/domain/services/plan_guard.py:62-80 | the in-degree loop computes the specified order, for graphs with repeated and unknown entries |
| TopologicalSort.KahnOrderIsTopological | packages/domain/services/plan_guard.py:62-80 | the order is duplicate-free, every dependency comes first, and the omitted steps are exactly those that reach a cycle or an unknown step |
| PassScheduler.ScheduleRespectsDependencies | packages/domain/services/processing_pipeline.py:858-869 | the sweeps run each node at most once, after all its dependencies |
| PassScheduler.ScheduleIsComplete | packages/domain/services/processing_pipeline.py:788-824 | exactly the nodes that reach no cycle and no unknown step are run; the unresolved list is exactly the others, in plan order |
| PassScheduler.DepthBoundsPasses | packages/domain/services/processing_pipeline.py:858-869 | a node whose longest dependency chain has d edges has run by sweep d + 1 |
| PassScheduler.AlgorithmsAgree | packages/domain/services/plan_guard.py:35-80 | on closed graphs "no cycle", "Kahn lists every step" and "the scheduler leaves nothing over" are one condition |
| PassScheduler.KahnAndScheduleAgree | packages/domain/services/processing_pipeline.py:858-869 | on every plan Kahn's order and the schedule list the same steps |
| PlanGuard.BuildDependencyGraph | packages/domain/services/plan_guard.py:12-32 | returns the plan's graph exactly if every named dependency is a step; otherwise names the first node in plan order with an unknown dependency |
| PlanGuard.ValidateInputs | packages/domain/services/plan_guard.py:302-354 | passes exactly the inputs that are supplied, external or produced earlier with a compatible type; otherwise reports the first input that is not |
| PlanGuard.ValidateNode | packages/domain/services/plan_guard.py:285-378 | a node passes if and only if it is acceptable after the nodes before it; otherwise the first failing check, in the order of the checks, is reported |
| PlanGuard.ValidateIoChain | packages/domain/services/plan_guard.py:279-379 | walks the nodes in Kahn order, registering each output's base type for the later ones, and reports the first fault of the first faulty node, if there is any |
| PlanGuard.ValidateOperationPlan | packages/domain/services/plan_guard.py:382-396 | accepts exactly the acceptable plans, marks them validated, and otherwise reports the first thing wrong in the order of the checks |
| PlanGuard.OneRejection | packages/domain/services/plan_guard.py:382-396 | the plan alone determines what it is rejected for |
| GuardMeaning.AcceptedExactly | packages/domain/services/plan_guard.py:279-396 | said of the texts and kinds in the plan alone: a plan is accepted exactly if it has nodes, its dependencies are steps, none depends on itself, and after the nodes before it every node has known keys, its parameters, an output of its own, and inputs that are blank where that is allowed, external files that may hold the kind, or outputs of a kind the port takes |
| GuardMeaning.AcceptedKindsFit | packages/domain/services/plan_guard.py:87-92 | in an accepted plan an input that reads an earlier node's output has type any, or that output's kind or a list of it |
| GuardMeaning.MismatchExactly | packages/domain/services/plan_guard.py:340-354 | a plan is rejected for a type exactly if, after right nodes only, the first wrong input of a node reads an earlier output of another kind; the rejection names that step, input, text and kind |
| GuardMeaning.RejectionMeans | packages/domain/services/plan_guard.py:285-396 | whatever a plan is rejected for holds of it, at a node before which every node is right |
| TopologicalSort.KahnListsByDepth | packages/domain/services/plan_guard.py:71-79 | the guard visits the steps by depth: one with a shorter longest chain of dependencies never comes later |
| PlanTheorems.AcceptedPlanIsSound | packages/domain/services/plan_guard.py:279-379 | in an accepted plan every output ref is declared once, and every non-blank input is an upload id, a fitting external file, or the fitting output of a strictly earlier node |
| PlanBuilder.AddProducers | packages/domain/services/operation_plan_builder.py:170-173 | appends the producers of the matched refs, other than the new step, in order |
| PlanBuilder.ConnectInputs | packages/domain/services/operation_plan_builder.py:163-173 | the loop over the input types computes the specified wiring |
| PlanBuilder.BuildSequence | packages/domain/services/operation_plan_builder.py:152-199 | the loop over the operations grows nodes, refs by type and producers as specified |
| PlanBuilder.BuildOperationNodes | packages/domain/services/operation_plan_builder.py:152-236 | the compiler's nodes are those of the specification, including the closing export |
| PlanBuilder.BuiltPlanIsWired | packages/domain/services/operation_plan_builder.py:152-236 | for any operations and parameters: nodes follow the sequence, depend only on earlier nodes, read only fitting refs of direct dependencies, and end in artifact.export unless empty |
| PlanWiring.CompiledWiring | packages/domain/services/operation_plan_builder.py:98-236 | node by node of every compiled plan: an input of one kind or a list of it is connected exactly if an earlier node puts out the kind, and reads the last such node; a list input makes its node depend on all of them; an input of any type, the closing export's too, reads the last node of the first kind of raster, vector, table, artifact; uploads read nothing; a node depends on exactly what its inputs await, or else on the node before it; ids, outputs, operations and parameters are those of its position |
| PlanBuilder.DedupKeepsOrder | packages/domain/services/operation_plan_builder.py:185-187 | dependencies stand in the order in which they were first named |
| PlanBuilder.NumbersAreUnique | packages/domain/services/operation_plan_builder.py:157-159 | step ids made at different positions differ, and so do refs made from them |
| PlanTheorems.BuiltIds | packages/domain/services/operation_plan_builder.py:157-159 | a compiled plan satisfies the schema's unique step ids |
| PlanTheorems.BuiltGraphIsAcyclic | packages/domain/services/operation_plan_builder.py:185-187 | a compiled plan has no unknown dependency and no cycle |
| PlanTheorems.BuiltPlanAcceptance | packages/domain/services/plan_guard.py:279-396 | the guard accepts a compiled plan exactly if it is non-empty, its required parameters are present and its unconnected inputs can be supplied |
| PlanTheorems.BuiltPlanObjections | packages/domain/services/plan_guard.py:279-396 | the guard can reject a compiled plan only for emptiness, a missing parameter or a missing input |
| PlanTheorems.CompilerMeetsGuard | packages/domain/services/operation_plan_builder.py:152-236 | for every operation sequence and parameters, the guard accepts the compiled plan exactly if the sequence is not empty and everything is supplied, and has no other objection |
| Pipeline.SweepOnce | packages/domain/services/processing_pipeline.py:862-869 | one sweep over a snapshot of the pending list runs exactly the nodes that become ready during it, in list order |
| Pipeline.RunPipeline | packages/domain/services/processing_pipeline.py:839-1767 | references, events and outcome are those of running the schedule in order; the preflight loop visits the same order |
| Pipeline.FailureSticks | packages/domain/services/processing_pipeline.py:858-869 | nothing runs after the first handler failure |
| DryRun.RunsThroughIff | packages/domain/services/processing_pipeline.py:788-869 | a run goes through exactly if the handler succeeds on every node it is called on, in the dry run the uploads, each time with the references of those before it, and fails with a step and a message exactly if that is its first failing call |
| DryRun.EventsTellTheRun | packages/domain/services/processing_pipeline.py:858-869 | every node is reported started and finished in turn, up to the first failure |
| DryRun.DryRunHandlesUploads | packages/domain/services/processing_pipeline.py:799-816 | the dry run calls the resolver on the upload nodes of the schedule and on no others |
| DryRun.DryRunCompletesIff | packages/domain/services/processing_pipeline.py:788-824 | the dry run of an accepted plan completes exactly if the resolver finds every upload, each call with the references of the uploads before it |
| DryRun.ExecutionCompletesIff | packages/domain/services/processing_pipeline.py:839-1767 | the execution of an accepted plan completes exactly if the handler succeeds on every node of the schedule |
| PlanListings.ListedOrderIsKeptIff | packages/domain/services/processing_pipeline.py:858-869 | the pipeline starts the nodes just as they are listed if and only if each is listed after its dependencies |
| PlanListings.CompiledOrderIsKept | packages/domain/services/operation_plan_builder.py:152-236 | a compiled plan is run in the order in which it was compiled |
| PlanRuntime.RefsAreRegistered | packages/domain/services/processing_pipeline.py:858-869 | after running some nodes exactly the refs they declare resolve, whatever the handlers do |
| PlanRuntime.AncestorRefsResolve | packages/domain/services/processing_pipeline.py:858-869 | a ref whose producer is a transitive dependency of the reader resolves when the reader starts |
| PlanRuntime.RefHoldsProducersFile | packages/domain/services/processing_pipeline.py:858-869 | a ref that one node registers resolves to the file that node's handler made |
| PlanRuntime.BuiltPlanRunsThrough | packages/domain/services/operation_plan_builder.py:152-236 | the scheduler never gets stuck on a compiled plan |
| PlanRuntime.BuiltInputsResolve | packages/domain/services/operation_plan_builder.py:163-183 | in the scheduler's own order every connected input of a compiled plan resolves to the file its producer made |
| PlanRuntime.AcceptedRefsResolve | packages/domain/services/plan_guard.py:302-354 | a sufficient case: in an accepted plan with unpadded refs, an input produced by a transitive dependency resolves at run time |
| PlanListings.FoundIffPlaced | packages/domain/services/processing_pipeline.py:858-869 | an input is found when its node starts if and only if a node scheduled earlier has registered that very text |
| PlanListings.FindsRefsIff | packages/domain/services/processing_pipeline.py:858-869 | a plan finds its refs at run time, whatever the handlers do, if and only if every ref the guard resolved to an output is registered in the same text before its reader is scheduled |
| PlanListings.AcceptedMayBeMisplaced | packages/domain/services/plan_guard.py:279-379 | two plans the guard accepts that do not meet that condition |
| PlanListings.FoundInEveryListingIff | packages/domain/services/processing_pipeline.py:858-869 | a ref that one node alone registers is found in every listing order of the plan if and only if its producer is a transitive dependency of its reader |
| PlanRuntime.AcceptedRefMayBeMissing | packages/domain/services/plan_guard.py:279-290 | an accepted plan whose second node starts before the ref it reads exists |
| PlanRuntime.AcceptedPaddedRefIsMissing | packages/domain/services/plan_guard.py:303-304 | an accepted plan whose reader depends on the producer and still misses its padded ref |
| Text.NumberedNamesDiffer | packages/domain/services/operation_plan_builder.py:159-159 | a decimal number followed by an underscore is read back unambiguously |
| Text.DecimalIsWorth | packages/domain/services/operation_plan_builder.py:159-159 | the numeral in a step id stands for the position |
| Text.StripExactly | packages/domain/services/plan_guard.py:303-304 | strip() takes away blanks at both ends and nothing else |
| SseParser.ParseSSEEvent | apps/web/src/api.ts:148-174 | the loop over the lines computes the frame's event name and joined data lines, or nothing without data |
| SseParser.ParseManyLines | apps/web/src/api.ts:148-174 | a frame with any number of data lines parses to its name, or "message" if it has none, and to data whose lines are exactly those |
| SseParser.ParseUnnamed | apps/web/src/api.ts:158-161 | an event line without a name makes the frame a message |
| Sse.IndexOfBlank | apps/web/src/api.ts:220-220 | the first position of a blank line, or -1 if there is none |
| Sse.ParseEvent | apps/api/routers/messages.py:22-23 | the body of an event frame parses to its name and payload |
| Sse.ParseComment | apps/api/routers/messages.py:32-32 | the body of a comment frame parses to nothing |
| Sse.FrameEndsAtBlank | apps/api/routers/messages.py:22-23 | the blank line that ends a frame is the first one in all that follows |
| Sse.DrainInPieces | apps/web/src/api.ts:219-258 | decoding what has arrived, keeping the rest and decoding on equals decoding the whole text |
| Sse.DecodeEncode | apps/api/routers/messages.py:22-23 | decoding the server's text gives back exactly the events, in order, with nothing left over |
| SseClient.CreateMessageStream | apps/web/src/api.ts:206-265 | for any chunks, the caller observes of the whole text's events, before the first error, the non-empty delta texts in order and the last message whose payload parses; the stream fails exactly if there is an error event, and otherwise ends in that message, if it is one |
| SseClient.HandlingGathers | apps/web/src/api.ts:225-256 | handling any events gathers the deltas and the last message before the first error, and throws exactly at an error |
| SseClient.StreamRoundTrip | apps/web/src/api.ts:206-265 | however the server's frames are cut into chunks, the client handles exactly the events sent, and observes their deltas and last message up to an error |
| MessageStream.RunKeepsInv | apps/api/routers/messages.py:35-110 | in every interleaving, with time-outs and a worker that dies anywhere, what was delivered plus what is queued is what was produced, and done is produced last |
| MessageStream.RunsGoOn | apps/api/routers/messages.py:35-110 | no run is cut short: orchestration may go on in any way, the worker may queue its next item or die at any point, and the generator has a step until it returns |
| MessageStream.ClientSeesTheRun | apps/api/routers/messages.py:87-110 | the client sees the queued events in order, each once, one done at the end, and the fallback pair exactly if the worker ended without queueing done |
| StreamTheorems.WorkerSays | apps/api/routers/messages.py:35-85 | in every run the worker queues its deltas and then, put by put, the assistant's text if there was no delta, the message and done(true), or after an exception the error and done(false); it has exited exactly if all of that is queued |
| MessageStream.GeneratorReturns | apps/api/routers/messages.py:87-110 | once the worker has stopped the generator always has a step, and every step brings it nearer its return |
| MessageStream.EmptinessFirstLosesTheAnswer | apps/api/routers/messages.py:96-96 | with the two tests exchanged there is a run in which a queued answer is never sent |
| MessageStream.EndToEnd | apps/api/routers/messages.py:26-110 | for any interleaving and any chunking the client decodes ready, the produced events, and the fallback pair only if it is due |
| StreamTheorems.ClientEndsSo | apps/api/routers/messages.py:26-110 | for any interleaving and chunking, the caller of a stream that has ended gets the message exactly if the worker queued it and done(true), and an error otherwise; it is shown exactly the deltas queued, in order |
| EventFeed.SendEvents | apps/api/routers/tasks.py:80-85 | sends events until the bound is reached, and says whether it was |
| EventFeed.StreamTaskEvents | apps/api/routers/tasks.py:72-92 | sends the feed cut at max_events, stops exactly when that is reached, having sent just that many of its first events, sends a keep-alive for each empty poll, and breaks off exactly when a poll before that finds no task; an unknown task is refused |
| EventFeed.KeepAlivesAreQuietPolls | apps/api/routers/tasks.py:86-87 | keep-alives are sent for exactly the polls with no event past what had been sent |
| EventFeed.SelectIsOrdered | packages/domain/services/task_events.py:34-39 | the query's rows are the task's rows past the cursor in strictly increasing id order |
| EventFeed.FeedIsIncreasing | packages/domain/services/task_lifecycle.py:940-942 | whatever the polls see, events are sent in strictly increasing order past the starting cursor, so none is repeated |
| EventFeed.FeedIsCompleteIff | packages/domain/services/task_events.py:29-40 | the stream has sent exactly the task's events past the cursor if and only if rows became visible in id order |
| EventFeed.AnyInterleaving | packages/domain/services/task_events.py:8-26 | for every interleaving of appends, with any gaps between their keys, and polls the stream has sent exactly the events the last poll could see |
| EventFeed.LateRowIsLost | packages/domain/services/task_events.py:34-39 | a row that becomes visible behind the cursor is never sent |
| MessagePages.SelectIsHistory | packages/domain/services/session_queries.py:93-123 | the filtered and sorted rows are the history before the cursor, read backwards |
| MessagePages.PageIsSlice | packages/domain/services/session_queries.py:119-126 | a page is the newest limit messages before the cursor, oldest first, and names the oldest as next cursor exactly if older ones remain |
| MessagePages.HistoryExists | packages/domain/services/session_queries.py:119-123 | the (created_at, id) order determines the history uniquely |
| MessagePages.EveryMessageOnce | packages/domain/services/session_queries.py:78-130 | following next_cursor visits every message exactly once, newest page first, whatever arrives meanwhile after the cursor |
| MessagePages.RequestsIsCeiling | packages/domain/services/session_queries.py:119-126 | the number of requests for n messages is n / limit rounded up |
| MessagePages.RefusedExactly | packages/domain/services/session_queries.py:85-107 | a request is refused exactly for an unknown session or a cursor that names no message of the session |
| TaskState.NoWayOut | packages/domain/services/task_state.py:35-83 | the statuses without a way out are exactly success, failed and cancelled; for steps success, failed and skipped |
| TaskState.EnteredOnlyFrom | packages/domain/services/task_state.py:35-83 | for every status of a task and of a step, exactly from where it may be entered |
| TaskState.ReplayGivesTheSteps | packages/domain/services/task_state.py:138-175 | after any calls of set_step_status, replaying the step events gives every step's status; at most two events a step, none after a terminal one |
| TaskRun.TaskRunRecord.SetTaskStatus | packages/domain/services/task_state.py:110-135 | moves the status along the table or by force, with its event; otherwise changes nothing |
| TaskRun.TaskRunRecord.SetStepStatus | packages/domain/services/task_state.py:138-175 | moves the step along the table, with an event only if its status changes; otherwise changes nothing |
| TaskRun.TaskRunRecord.EnsureTaskSteps | packages/domain/services/task_state.py:102-107 | adds the missing steps as pending and keeps the others |
| TaskRun.TaskRunRecord.UpdateTaskPlanDraft | packages/domain/services/task_lifecycle.py:767-804 | a patch is stored as validated exactly if approval is awaited, its version is newer and the guard accepts it; otherwise nothing changes and the first failing check is reported |
| TaskRun.TaskRunRecord.ApproveTaskPlan | packages/domain/services/task_lifecycle.py:807-876 | the stored plan is approved and queued exactly if it is awaited, accepted by the guard, of the named version, and its dry run completes; otherwise nothing changes and the first failing check is reported |
| TaskRun.TaskRunRecord.RejectTaskPlan | packages/domain/services/task_lifecycle.py:879-927 | exactly a task that awaits approval is cancelled, its plan marked rejected |
| TaskRun.TaskRunRecord.PlanTask | packages/domain/services/graph/nodes.py:64-143 | an approved plan is carried on untouched; an open one asks for approval; otherwise planning starts afresh |
| TaskRun.TaskRunRecord.PrepareStart | packages/domain/services/graph/nodes.py:146-202 | the runtime starts, asks, or is refused with the transaction rolled back |
| TaskRun.TaskRunRecord.RunTool | packages/domain/services/graph/runtime_helpers.py:925-1150 | a step's tool leaves the step skipped, successful, or running when it fails or its worker dies |
| TaskRun.TaskRunRecord.Fail | packages/domain/services/graph/nodes.py:314-352 | a failing step marks the current step, the plan and the task as failed |
| TaskRun.TaskRunRecord.RunStep | packages/domain/services/graph/nodes.py:216-352 | a runtime node starts the runtime if needed, skips an unplanned step, runs the tool, and finishes the task after the last one |
| TaskRun.TaskRunRecord.FinaliseNode | packages/domain/services/graph/nodes.py:375-442 | the finalisers force the status they stand for, once |
| TaskRun.TaskRunRecord.RunTaskGraph | packages/domain/services/graph/builder.py:29-119 | the loop over nodes and routes computes the delivery, for a worker that may die between any two nodes |
| PlanApproval.RunComes | packages/domain/services/graph/nodes.py:64-352 | a delivery of an approved plan never touches the operation plan or its version, and starts the pipeline only on the stored nodes |
| PlanApproval.RunKeepsInv | packages/domain/services/task_lifecycle.py:767-927 | the invariant of plan, status, versions and events holds after every sequence of requests and deliveries |
| DeliveryTheorems.CarriedPlanIsApproved | packages/domain/services/graph/nodes.py:88-95 | the pipeline is never started before an approval, and then only on the nodes of the plan as approved, which the guard accepts |
| DeliveryTheorems.ApprovalIsFinal | packages/domain/services/task_lifecycle.py:807-876 | after an approval no request changes the task or the approved plan any more |
| DeliveryTheorems.VersionsRise | packages/domain/services/task_lifecycle.py:776-795 | from the created version on every accepted patch strictly raises the version, and the stored and the approved version is the last of them |
| DeliveryTheorems.ApprovedIsNamed | packages/domain/services/task_lifecycle.py:824-832 | the carried plan is one that an approval found stored under the version it named |
| DeliveryTheorems.StepsAreReplayed | packages/domain/services/task_state.py:138-175 | through any deliveries the step events tell the status of every step |
| DeliveryTheorems.ApprovedPlanNeverStalls | packages/domain/services/task_lifecycle.py:832-850 | on a plan the guard accepted neither the dry run nor the pipeline reports unresolved dependencies: it completes or a handler fails |
| DryRun.ApprovalNeedsUploads | packages/domain/services/task_lifecycle.py:807-850 | an approval is granted exactly if it is awaited, the stored plan is accepted, its version is the named one and every upload resolves; it is refused for the dry run exactly if only the uploads do not |
| DryRun.ApprovalIgnoresOtherNodes | packages/domain/services/processing_pipeline.py:799-816 | what a resolver would do with other nodes plays no part in an approval |
| PlanProvenance.SomePlanStands | packages/domain/services/task_lifecycle.py:767-804 | at any time exactly one plan stands: that of the last accepted patch, or the created one |
| PlanProvenance.ApprovedPlanStands | packages/domain/services/task_lifecycle.py:789-795 | the stored, the approved and the executed nodes are those of the plan that stands, and no other accepted patch brought the approved version |
| PlanProvenance.TakenVersionsRise | packages/domain/services/task_lifecycle.py:776-787 | of two accepted patches the later has the higher version, over all sequences of requests and deliveries |
| PlanProvenance.PatchEffect | packages/domain/services/task_lifecycle.py:767-804 | in every reachable state, what a patch changes and when it changes nothing |
| PlanProvenance.ApprovalEffect | packages/domain/services/task_lifecycle.py:807-876 | in every reachable state, what an approval changes and when it changes nothing |
| PlanProvenance.RejectionEffect | packages/domain/services/task_lifecycle.py:879-927 | in every reachable state, what a rejection changes and when it changes nothing |
| DeliveryEnds.TerminalIsNeverRestarted | packages/domain/services/graph/nodes.py:182-201 | a delivery that finds a terminal status starts nothing: no step event, no pipeline run, at most one finaliser's event |
| DeliveryEnds.TerminalStaysIff | packages/domain/services/graph/nodes.py:146-201 | exactly when a completed delivery leaves a terminal status alone |
| DeliveryTheorems.TerminalIsForever | packages/domain/services/task_lifecycle.py:767-927 | once the task is terminal, no further requests and deliveries change anything of it |
| DeliveryEnds.RunningEnds | packages/domain/services/graph/nodes.py:216-352 | from any step of a running task, whatever its steps went through before: the run fails exactly if a planned step cannot start or does not pass, and succeeds only through generate_outputs |
| StepStories.FailedToolFailsItsStep | packages/domain/services/graph/runtime_helpers.py:646-676 | the step whose tool fails once started ends as failed, and with it the plan and the task |
| StepStories.PlanFollowsStep | packages/domain/services/planner.py:551-574 | what a step's new status makes of the plan's status |
| StepStories.OnlyPlannedStepsRun | packages/domain/services/graph/nodes.py:204-250 | a plan that names its steps passes over the others with one event; one that names none has every tool run |
| StepStories.RunTells | packages/domain/services/graph/nodes.py:216-352 | from any running task, every planned step to come, other than the one it already stands at, ends in success, skipped or failed as its own tool did if it is reached and may start, and else stays as it was |
| StepStories.RefusalBlamesThePlace | packages/domain/services/graph/runtime_helpers.py:646-676 | a step refused before its tool starts is not marked; what is marked as failed is the step the task stands at, if it is open, and no other |
| StepStories.RunStarts | packages/domain/services/graph/nodes.py:216-352 | such a run starts the pipeline once if the step is reached and its tool may start, and else never |
| DeliveryEnds.DeliveryEndsSo | packages/domain/services/graph/nodes.py:50-442 | for every task with an approved plan and a worker that survives, the status in which the delivery ends |
| DeliveryEnds.SurvivingWorkerSettles | packages/domain/services/planner.py:61-76 | with a plan the planner builds, a surviving worker brings a queued or running task to success or failure, never leaving it running |
| DeliveryTheorems.JobEndsSo | packages/domain/services/graph/nodes.py:216-352 | the same end for every delivery of a submitted job, however it has fared before |
| DeliveryTheorems.SurvivingDeliverySettles | packages/domain/services/planner.py:61-76 | after any requests and deliveries cut short, one delivery with a surviving worker settles the job for good |
| DeliveryTheorems.ApprovedJobEnds | packages/domain/services/task_lifecycle.py:807-876 | a job just approved, with a plan the planner built, succeeds exactly if every planned step's tool succeeds or is skipped, and fails otherwise |
| StepStories.ApprovedJobTells | packages/domain/services/graph/nodes.py:216-352 | in a job just approved, how every planned step ends, from the outcomes of the tools alone, and how often the pipeline is started |
| DeliveryEnds.RedeliveryRecoversIff | packages/domain/services/task_state.py:77-83 | a further delivery can bring a queued or running task to success if and only if no planned step has already succeeded or failed; otherwise every one fails it |
| DeliveryEnds.WhereTheWorkerDies | packages/domain/services/graph/nodes.py:216-352 | in the files-only plan a death inside the pipeline step is recoverable, a death right after it is not |
| DeliveryEnds.RedeliveryOfARunningTaskFails | packages/domain/services/task_state.py:77-83 | a finished first step fails a repeated delivery on the spot, even when its worker would have died later |
| SpecMerge.MergeDicts | packages/domain/utils.py:11-18 | terminates and equals the key-by-key merge |
| SpecMerge.Identities | packages/domain/utils.py:11-18 | the empty dict is an identity on both sides |
| SpecMerge.MergeIsIdempotent | packages/domain/utils.py:11-18 | applying the same override twice changes nothing more |
| SpecMerge.CoveredIff | packages/domain/utils.py:11-18 | a dict leaves no trace under an override exactly if all its key paths are overridden |
| SpecMerge.AssociativeIff | packages/domain/utils.py:11-18 | merging is associative if and only if no leaf of the second argument wipes out a dict the third would have kept part of |
| SpecMerge.LeafWipesOutDict | packages/domain/utils.py:14-17 | three dicts for which merging is not associative |
| Revisions.RevisionTable.Insert | packages/domain/services/task_revisions.py:77-106 | a row is added exactly if its key and its number are free |
| Revisions.RevisionTable.Activate | packages/domain/services/task_revisions.py:109-144 | exactly the given row is active afterwards, a correction counts one more than the row active before, and its specification is mirrored |
| Revisions.RevisionTable.ApplyCorrection | packages/domain/services/revision_handler.py:62-165 | a correction merges, inserts base + 1, activates and mirrors with the three rewritten keys, or changes nothing |
| Revisions.InsertContinuesTheChain | packages/domain/models.py:183-193 | an insertion is refused exactly for a stale base or a used key, and otherwise continues the chain |
| Revisions.RunKeepsInv | packages/domain/services/task_revisions.py:77-188 | the invariant of rows, specifications and open transactions holds in every interleaving |
| Revisions.OneChainOfRevisions | packages/domain/services/task_revisions.py:109-188 | committed numbers are 1..n, exactly the row n is active, base links form one chain, and the active row counts n - 1 corrections |
| Revisions.ActiveSpecIsTheFold | packages/domain/services/revision_handler.py:75-134 | the active specification is the left fold of the merges over the committed overrides, and the mirrored one agrees with it outside three keys |
| Revisions.CommitShowsOutcome | packages/domain/services/revision_handler.py:88-134 | after any history, the values of need_confirmation, missing_fields and clarification_message once a correction, usable or blocked, or a first revision is committed |
| Revisions.RefusedExactlyWhenStale | packages/domain/services/task_revisions.py:174-188 | a transaction is refused exactly if a revision was committed since it read; a refused first revision finds an active one to reload |
| Confidence.BuildHistoryFeatures | packages/domain/services/session_memory_confidence.py:33-56 | exactly the fields with entries get features, counted from their entries |
| Confidence.ComputeFieldConfidence | packages/domain/services/session_memory_confidence.py:59-83 | the score is the bounded weighted sum, in [0, 1], with the level the thresholds give it |
| Confidence.WeightsExactly | packages/domain/services/session_memory_confidence.py:68-75 | by how much the sum moves with the parser's and the message's score, with each count, up to four, and with a confirmation |
| Confidence.NewestExactly | packages/domain/services/session_memory_confidence.py:40-49 | the last confirmed number is that of the first entry with the greatest revision number |
| Confidence.RecordedFeatures | packages/domain/services/session_memory_confidence.py:38-55 | how the counts move when a numbered revision is recorded anywhere in the history |
| Confidence.RepeatingNeverLowers | packages/domain/services/session_memory_confidence.py:68-76 | one more revision that repeats a value already seen never lowers the score |
| Confidence.NewValueLowersExactly | packages/domain/services/session_memory_confidence.py:68-76 | exactly when a revision with a new value lowers the confidence that is returned |
| Confidence.NewValueLowersSum | packages/domain/services/session_memory_confidence.py:68-75 | exactly when it lowers the weighted sum before the bounds |
| Confidence.ChangeOfMindLowers | packages/domain/services/session_memory_confidence.py:68-76 | a history of four agreeing revisions whose confidence a fifth one lowers |
| Confidence.HistoryOnlyAdds | packages/domain/services/understanding.py:841-889 | the adjusted score is no lower, stays in [0, 1], and its level is no lower |
| Confidence.AdjustedIsGreatest | packages/domain/services/understanding.py:841-889 | the adjusted score is the greatest of the score so far and what any weight of the parser with any other weight gives with the history |
| ResponsePolicy.KeyFieldLevels | packages/domain/services/response_policy.py:278-297 | every key field gets the level of its score, a missing confidence counting as zero |
| ResponsePolicy.DecideResponse | packages/domain/services/response_policy.py:36-219 | the branches compute the specified decision, and the last return is unreachable |
| ResponsePolicy.NothingBelowHigh | packages/domain/services/response_policy.py:143-219 | with no low and no medium field left every key field is high |
| ResponsePolicy.LowFieldsExactly | packages/domain/services/response_policy.py:48-52 | the missing fields are exactly the key fields that are low or missing for the parser, each once |
| ResponsePolicy.ExecutesExactly | packages/domain/services/response_policy.py:36-219 | exactly when a task is executed without asking |
| ResponsePolicy.AnswersExactly | packages/domain/services/response_policy.py:36-219 | exactly when the answer asks, chats, shows the revision and confirms, and what its flags tell |
| ResponsePolicy.NamesExactly | packages/domain/services/response_policy.py:36-219 | which fields each answer offers for editing and which it calls missing |
| ResponsePolicy.NamesInOrder | packages/domain/services/response_policy.py:48-53 | the fields stand in the order of the needed ones, in a question those only the parser misses after them |
| ResponsePolicy.BetterScoresNeverDemote | packages/domain/services/response_policy.py:36-219 | raising scores never demotes the decision, whatever the two thresholds are |
| ResponsePolicy.HistoryNeverDemotes | packages/domain/services/understanding.py:841-889 | adjusting every field by its history never demotes the decision |
| ResponsePolicy.RepeatingNeverDemotes | packages/domain/services/understanding.py:841-889 | a further revision that repeats a value already seen never demotes the decision |

## Left out

- Raster and vector kernels, file writing, band expressions: a handler is an arbitrary function from a node and the references so far to a file or an error.
- Path-suffix and bounding-box heuristics of the guard, and which parameters stand in for an input: arbitrary predicates (`PlanGuard.Heuristics`).
- Operation names, input, output and parameter keys outside the registry: the schema admits registered operations only, and the keys are enumerations; `required_param_any` is left out because no registered operation uses it.
- Default parameters, parameter overrides and export formats of compiled nodes: an arbitrary parameter choice per node; `retry_policy` is left out.
- The closing loop of `_pick_refs_for_input_type` over other types is left out, because the registry has only the four output types it has already tried.
- Python's recursion limit in the depth-first search, and the text of error messages.
- SseClient.CreateMessageStream: UTF-8 decoding of byte chunks, which `TextDecoder` does before the loop; JSON parsing is an arbitrary reader of the payload.
- A message-stream client that disconnects, and the half-second clock of the time-outs; any waiting read may time out while the queue is empty.
- The sleep between polls of the event feed; a poll sees one snapshot of the table.
- Messages that are inserted before the cursor while pages are read, which the keyset does not promise to show; database collations: ids are compared by code unit.
- TaskRun.TaskRunRecord.FinaliseNode: the doubled status change of the clarification finaliser and its already closed session, modelled as one status change.
- TaskRun.TaskRunRecord.RunTool: the step's decision rounds with a language model, whose result is an arbitrary outcome, and the events around a tool; the artifacts the tools persist.
- A task without a stored plan, a task row that is missing, and a specification that does not parse: a delivery is modelled for a task that has all three.
- Rejection reason and time, durations, error codes and the details of events.
- Corrections between plan requests and deliveries, which force a task back to awaiting approval; graph runs are not interleaved with requests.
- Revisions.RevisionTable.ApplyCorrection: the flat columns of the mirrored row and the interaction state; AOI normalization is an arbitrary outcome, and a specification that fails to parse is a rolled-back transaction.
- Locks and isolation of the database beyond what the revision transactions need: committed reads, unique indexes that make an insertion wait, and an activation that commits under the task's row lock.
- Order of keys in dictionaries; lists are leaves of a specification.
- Floating-point rounding of the confidence score, and coercion of malformed history entries.
- The texts and the payload of a decision, and its flag for creating a task.
- The language-model client, prompts, intent classification, scoring of fields from message signals, recommendation and explanation texts, storage, migrations, web routing, and the user interface.

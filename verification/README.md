# A verified model of the flow engine, the reporting library and the concurrency helpers

This project models five parts of the repository in Dafny and proves what they are for.

* **The flow interpreter** (`Flow*.dfy`). The tree-walking interpreter with its stack of
  Function/Loop/Local scopes, its per-scope control signal, its return cells shared by all scopes of
  one activation and its shared integer cells is written as a class (`FlowScopes`,
  `FlowInterpreter`). Every method is proved to compute what a big-step semantics without stack,
  signal forwarding or shared return cells computes (`FlowSemantics`), and to leave every lower scope
  and every other return cell alone. Laws about runs are proved on the semantics: what a signal
  skips, which names share an integer, what a run costs, and that the call-depth bound is immaterial
  (`FlowLaws`, `FlowRuns`, `FlowDepth`). `FlowMeaning` says what each construct means without naming the
  functions that evaluate it: operators by integer arithmetic, an if statement by its one branch, an
  await by the statements of the workflow's body and what they returned. `FlowExamples` has two programs that do not do what they
  look like.
* **The execution report tree** (`Report*.dfy`). `Report` has the methods that update the heap tree in
  place; `ReportModel` says what each does to all values of the tree at once;
  `ReportProgressLaws`, `ReportStatusLaws` and `ReportRunLaws` prove what follows for whole trees and
  whole runs; `ReportExamples` runs one that a reader may not expect.
* **The append-only vector under it** (`StableVector.dfy`), as a class for its one writer and as a
  transition system with any number of concurrent readers.
* **Concurrent protocols**: `Atomic` with its address-ordered locking (`AtomicProtocol.dfy`) and the
  when_all and when_any latches (`Latches.dfy`), as transition systems over all interleavings; the
  latch classes are proved to run as those systems do.
* **Range intersection** (`Ranges.dfy`), **copy-on-write handles** (`CowCells.dfy`) and the
  **JSON conversions** (`JsonConversion.dfy`). `Arithmetic.dfy`, `Sequences.dfy` and `Wrappers.dfy`
  hold the few facts and the option and result types that several parts use.

`dafny verify dfyconfig.toml` checks everything.

## How the code is read

* Integer cells are numbered; a value of type integer is the number of its cell. Cell 0 is the
  default value that all integers declared without a value share, because the constructor hands out
  the one entity it captured (`src/libs/flow/src/engine/types/entity_utils.hpp:41-47`). The rvalue
  `Entity::copy` detaches unless the cell is unique; a unique cell has no other name, so a fresh cell
  is used in both cases.
* Only `void`, `boolean`, `integer`, `string`, `duration`, `error` and `workflow` are types of the
  model; the workflow types never set an id and so compare equal to each other.
* `break_loop` does not end one loop. `pop` forwards Break out of a Loop scope as out of a Local
  one, so it ends the whole activation (`FlowLaws.SignalEndsEveryEnclosingBlock`). Scoping is dynamic:
  `find_entity` goes on into the callers' scopes (`FlowLaws.CalleeSeesCallersBindings`).
* A failed assignment is dropped: the statement throws its result away, so assigning a string to an
  integer completes and leaves the integer as it was
  (`src/libs/flow/src/engine/eval/interpreter_workflow.cpp:66-67`). What runs on after it is part of
  the semantics.
* The first scope binds `println`, `panic` and `str_format`, so declaring one of these names at the top
  level is a redeclaration. What they print or format is not modelled, except that `str_format` with
  only a base string returns it.
* `try` moves the error into the return value and goes on with a moved-from error, taken to have an
  empty message. Signed overflow of `+` and `-`, undefined in the source, is an evaluation error.
* An evaluation error aborts the run; nothing is claimed about the scopes it leaves behind.
* The report tree is used by one writer, as its header says. Progress totals are exact integers and
  their quotient an exact rational, rounded half up. A weak compare-and-set may fail spuriously any
  number of times. Each report's observers are modelled by the list of events they have received.
* `ExecutionProgress(int)` keeps the low byte before it clamps, so 300 becomes 44
  (`ReportTypes.ProgressFromIntClampsIff` says for which values this is the clamp).
* `when_any`'s awaiter rethrows the first exception it finds among the tasks that are done, even when
  another one resumed it; `when_all`'s awaiter is `noexcept`, so an exception ends the program.
* Memory is sequentially consistent in the transition systems. A value is copied word by word, and an
  edit may show any garbage before it publishes its result.
* `std::ranges::equal_range` is written out as a lower bound followed by an upper bound from there.

## Model

| member | source | states |
|---|---|---|
| FlowScopes.SharedCellIffSameActivation | src/libs/flow/src/engine/eval/evaluation_context.cpp:53-63 | in every stack that pushing and popping can build, two scopes share a return value exactly when the same Function scope is the nearest one below them |
| FlowScopes.EvaluationScope.Push | src/libs/flow/src/engine/eval/evaluation_context.cpp:53-63 | a block joins the current return value and starts quiet; a function scope gets an empty return value nobody else has; what is visible by name does not change |
| FlowScopes.EvaluationScope.Pop | src/libs/flow/src/engine/eval/evaluation_context.cpp:65-85 | the stack below is restored except that a signal of a Local or Loop scope, Break included, replaces the one below; return-value sharing is kept |
| FlowScopes.LeaveBlock | src/libs/flow/src/engine/eval/evaluation_context.cpp:65-85 | leaving a block restores all bindings and lower scopes and hands on exactly its signal and its activation's result |
| FlowScopes.LeaveActivation | src/libs/flow/src/engine/eval/evaluation_context.cpp:65-85 | leaving a function scope restores the caller's stack exactly, whatever signal the callee ended with |
| FlowScopes.EvaluationScope.FindEntity | src/libs/flow/src/engine/eval/evaluation_context.cpp:91-98 | the loop over the scopes finds the latest binding of the name in all of them, oldest scope last |
| FlowScopes.EvaluationScope.FindInCurrent | src/libs/flow/src/engine/eval/evaluation_context.cpp:15-22 | the search in the current scope sees exactly the bindings made since it was pushed |
| FlowScopes.EvaluationScope.ReturnValue | src/libs/flow/src/engine/eval/evaluation_context.cpp:45-49 | only the current activation's result and the current scope's signal change |
| FlowInterpreter.Interpreter.EvalExpression | src/libs/flow/src/engine/eval/interpreter_expression.cpp:8-31 | expressions on the scope stack have the value, error, store and visible state of the stack-free semantics, and touch no lower scope |
| FlowInterpreter.Interpreter.EvalTerms | src/libs/flow/src/engine/eval/interpreter_expression.cpp:156-205 | the operator loop is the left fold of the semantics |
| FlowInterpreter.Interpreter.EvalCallArguments | src/libs/flow/src/engine/eval/interpreter_expression.cpp:38-51 | arguments are evaluated left to right and keep the cells of the variables passed |
| FlowInterpreter.Interpreter.EvalFunctionCall | src/libs/flow/src/engine/eval/interpreter_expression.cpp:53-85 | calling a workflow only packs its definition with the arguments, calling a built-in function evaluates them and calls it, anything else is no callable, as in the semantics |
| FlowInterpreter.Interpreter.EvalTry | src/libs/flow/src/engine/eval/interpreter_workflow.cpp:350-357 | an error raises a return signal as in the semantics, without leaving the expression |
| FlowInterpreter.Interpreter.EvalInvocation | src/libs/flow/src/engine/eval/interpreter_workflow.cpp:359-447 | awaiting a workflow leaves the caller's scopes exactly as they were and rewrites no existing return value; value and store are those of the semantics |
| FlowInterpreter.Interpreter.BindArguments | src/libs/flow/src/engine/eval/interpreter_workflow.cpp:379-415 | inputs are bound by name, else by position, with the source's checks in its order |
| FlowInterpreter.Interpreter.EvalScope | src/libs/flow/src/engine/eval/interpreter_workflow.cpp:118-127 | a block that completes restores scope count, lower scopes and its own scope's bindings, and refines the semantics |
| FlowInterpreter.Interpreter.EvalStatement | src/libs/flow/src/engine/eval/interpreter_workflow.cpp:110-116 | every kind of statement refines the semantics and changes the top scope only |
| FlowInterpreter.Interpreter.EvalIfBlock | src/libs/flow/src/engine/eval/interpreter_workflow.cpp:147-169 | if, elif and else with the source's checks for a pending signal refine the semantics |
| FlowInterpreter.Interpreter.EvalRepeatBlock | src/libs/flow/src/engine/eval/interpreter_workflow.cpp:171-180 | the counting loop refines the bounded iteration of the semantics |
| FlowInterpreter.Interpreter.EvalVariableDeclaration | src/libs/flow/src/engine/eval/interpreter_workflow.cpp:21-43 | declarations refine the semantics, error cases in the source's order |
| FlowInterpreter.Interpreter.Assign | src/libs/flow/src/engine/types/builtin/integer.cpp:63-77 | an assignment succeeds exactly for assignable values; an integer is overwritten in its cell, any other type leaves the store alone, and a failed one changes nothing |
| FlowInterpreter.Interpreter.EvalAssignment | src/libs/flow/src/engine/eval/interpreter_workflow.cpp:62-68 | an assignment statement completes as soon as both sides evaluate, whether or not the assignment succeeds, and refines the semantics |
| FlowInterpreter.Interpreter.EvalProgram | src/libs/flow/src/engine/eval/interpreter_program.cpp:6-13 | a whole program on the scope stack has the outcome of the stack-free semantics and stops at the first signal |
| FlowLaws.Sequencing | src/libs/flow/src/engine/eval/interpreter_workflow.cpp:123-126 | a later part of a block runs exactly when the earlier part ended without error and signal |
| FlowLaws.RepeatStopsAtFirstSignal | src/libs/flow/src/engine/eval/interpreter_workflow.cpp:171-177 | a repeat block is its first failing or signalling iteration, or all of them up to the limit |
| FlowLaws.SignalEndsEveryEnclosingBlock | src/libs/flow/src/engine/eval/evaluation_context.cpp:65-85 | along any way through statements before and after, repeat bodies in any iteration and if, elif and else branches: a statement that raises a break or return there ends all those blocks, and the run ends with the store, result, signal and step count it left |
| FlowLaws.AssignmentReachesExactlyTheSharers | src/libs/flow/src/engine/eval/interpreter_workflow.cpp:62-68 | an assignment completes exactly when its target is bound and its right-hand side evaluates; between integers it then changes what is read through exactly the bindings that share the target's cell, those of callers and shadowed ones included, and otherwise it changes nothing |
| FlowLaws.AwaitFreeAssignmentChangesNothingElse | src/libs/flow/src/engine/types/builtin/integer.cpp:63-69 | if the right-hand side awaits nothing, only the sharers read anything new, and only when an integer is assigned |
| FlowLaws.DeclaredIntegerIsFreshIffInitialised | src/libs/flow/src/engine/eval/interpreter_workflow.cpp:37-42 | a declared integer gets a cell no earlier binding reaches exactly when it has a non-void initialiser; otherwise it aliases the type's default |
| FlowLaws.InputsAreBoundInOrder | src/libs/flow/src/engine/eval/interpreter_workflow.cpp:381-415 | binding succeeds exactly when every input has the type of the argument it takes, the first one of its name or else the one at its position; then all inputs are bound, in order and at their places, and nothing else changes |
| FlowLaws.VariablesArePassedAsTheyAre | src/libs/flow/src/engine/eval/interpreter_expression.cpp:38-51 | evaluated arguments keep number and names, and an argument that names a variable is the variable's own value, cell included |
| FlowLaws.ArgumentsShareTheirCell | src/libs/flow/src/engine/eval/interpreter_workflow.cpp:390-414 | for workflows with any number of inputs and calls with any arguments, named ones included: an input is bound to the very cell of the variable passed for it by name or by position |
| FlowLaws.CalleeSeesCallersBindings | src/libs/flow/src/engine/eval/evaluation_context.cpp:91-98 | a workflow resolves a name it does not bind to its callers' latest binding |
| FlowMeaning.AwaitRunsTheWorkflow | src/libs/flow/src/engine/eval/interpreter_workflow.cpp:359-447 | awaiting a workflow, called or not, runs its statements on the caller's store with the inputs bound behind the caller's bindings; the store and the steps are those of the body, the caller keeps its bindings, signal and result, and gets the returned value if it is of the declared type or an error, void if nothing was returned and void is declared, and else the error that says so |
| FlowMeaning.AwaitRejects | src/libs/flow/src/engine/eval/interpreter_workflow.cpp:322-347 | what keeps an awaited value from running, with its error: no workflow, no duration, an unknown return type, the wrong number of arguments, the first argument not of the type its input declares |
| FlowMeaning.ActivationAbsorbsTheSignal | src/libs/flow/src/engine/eval/interpreter_workflow.cpp:377-446 | an await whose body reaches a signal at any depth of blocks hands back the result that stood when it was raised |
| FlowMeaning.WorkflowsHandBackWhatTheyReturn | src/libs/flow/src/engine/eval/interpreter_workflow.cpp:82-108 | an await hands back the value of the return, or the error of the raise or try, that the body reaches at any depth of blocks; a break adds nothing |
| FlowMeaning.TryReturnsErrors | src/libs/flow/src/engine/eval/interpreter_workflow.cpp:350-357 | try makes an error the result with a return signal and goes on with an empty one; it lets all else through |
| FlowMeaning.StatementsPassErrorsOn | src/libs/flow/src/engine/eval/interpreter_workflow.cpp:82-108 | expression, return and raise statements fail with their expression, and raise takes only strings and errors |
| FlowMeaning.IfRunsOneBranch | src/libs/flow/src/engine/eval/interpreter_workflow.cpp:147-169 | an if statement is the block of its first condition that is true, with the conditions before it evaluated and no other block run; the else block, or nothing, if all are false; a false condition that raised a signal ends it, and one that is no boolean is an error |
| FlowMeaning.QuietRepeatsRunToTheLimit | src/libs/flow/src/engine/eval/interpreter_workflow.cpp:171-180 | a repeat block whose iterations raise no signal is its body run as often as the loop limit says |
| FlowMeaning.BlocksKeepPendingSignals | src/libs/flow/src/engine/eval/evaluation_context.cpp:65-85 | a block takes its bindings away and leaves the signal of its statements, or else the one pending before |
| FlowMeaning.OperatorsAreArithmetic | src/libs/flow/src/engine/types/builtin/integer.cpp:22-54 | + and - give the integer sum and difference or an overflow error, the six comparisons are true exactly when the integers stand in that relation; both operands are read after the right one was evaluated, and nothing but integers has operators |
| FlowMeaning.ChainsAssociateLeft | src/libs/flow/src/engine/eval/interpreter_expression.cpp:156-205 | one more operator at the end of a chain applies to the value of the chain before it |
| FlowMeaning.ChainsAreSignedSums | src/libs/flow/src/engine/eval/interpreter_expression.cpp:156-178 | a chain of additions and subtractions of literals reads their signed sum exactly when every partial sum fits 64 bits |
| FlowMeaning.LiteralsGiveTheirValue | src/libs/flow/src/engine/eval/interpreter_expression.cpp:8-11 | a literal gives what it spells, an integer in a cell of its own |
| FlowMeaning.NamesGiveTheirLatestBinding | src/libs/flow/src/engine/eval/interpreter_expression.cpp:13-31 | a name gives the value of the last binding made of it, and fails exactly when there is none |
| FlowMeaning.LastArgumentLast | src/libs/flow/src/engine/eval/interpreter_expression.cpp:38-51 | arguments are evaluated one after the other, each in the state the earlier ones left, and keep their names |
| FlowMeaning.CallsByCallee | src/libs/flow/src/engine/eval/interpreter_expression.cpp:53-85 | what calling a name does by what it is bound to: a workflow is packed with its arguments and does not run, println gives void, panic ends the run, str_format returns its base string, nothing else can be called |
| FlowMeaning.AssignmentsGoByType | src/libs/flow/src/engine/types/builtin/integer.cpp:63-77 | a value can be assigned to one of its own type, and an error to anything but an integer |
| FlowMeaning.DeclarationsBindTheirValue | src/libs/flow/src/engine/eval/interpreter_workflow.cpp:21-43 | a declaration fails if the block has the name or the type is unknown; else it binds the initial value if that is of the type, an integer copied to a new cell, or the default of the type if there is none |
| FlowMeaning.DefinitionsBindTheWorkflow | src/libs/flow/src/engine/eval/interpreter_workflow.cpp:45-60 | a definition binds its name, which the block must not have, to the workflow and changes no other name |
| FlowRuns.ProgramRuns | src/libs/flow/src/engine/eval/interpreter_workflow.cpp:171-180 | over every program run all values refer to allocated cells and to workflows of the program, and whether it completes or ends in an error, the statements evaluated are at most a cost read off the syntax in which a repeat multiplies its body by the loop limit |
| FlowDepth.DepthBoundIsImmaterial | src/libs/flow/src/engine/eval/interpreter_workflow.cpp:198-209 | a run the call-depth bound does not cut short is the same under every larger bound |
| FlowExamples.MistypedAssignmentIsDropped | src/libs/flow/src/engine/eval/interpreter_workflow.cpp:62-68 | a program that assigns a string to an integer runs to its end with the integer unchanged |
| FlowExamples.UninitialisedIntegersAreOne | src/libs/flow/src/engine/types/entity_utils.hpp:41-47 | of two integers declared without a value, assigning the one sets the other |
| ReportTypes.RoundedRatioIsNearest | src/libs/core/headers/ez/reporting/Types.hpp:65-65 | the rounded quotient is within half of the exact one and rounds a half up |
| ReportTypes.ProgressFromIntClampsIff | src/libs/core/headers/ez/reporting/Types.hpp:63-80 | making a progress from an int clamps it exactly for the values listed; the others lose their high bytes first |
| ReportTypes.ThreeHundredBecomesFortyFour | src/libs/core/headers/ez/reporting/Types.hpp:63-63 | an int for which it is no clamp |
| ReportModel.AddedIsForest | src/libs/core/src/reporting/ExecutionReport.cpp:186-194 | hanging a parentless report under one not below it keeps parent and sub-report links a forest |
| ReportModel.AddedIsForestOnlyIf | src/libs/core/src/reporting/ExecutionReport.cpp:186-194 | whatever is linked is a forest again only if the added report had no parent and was not above the other |
| Report.ExecutionReport.Notify | src/libs/core/src/reporting/ExecutionReport.cpp:409-425 | the walk up the parents delivers the event once to the report itself and to each ancestor, and to no one else |
| Report.ExecutionReport.AddSubReport | src/libs/core/src/reporting/ExecutionReport.cpp:186-194 | both links are set, the report it was added to and that one's ancestors hear of it, and the links are a forest again exactly when the added report had no parent |
| Report.ExecutionReport.ProgressFromSubReports | src/libs/core/src/reporting/ExecutionReport.cpp:315-329 | the loop yields the rounded weighted mean of the active sub reports, and nothing exactly when no weight is positive |
| Report.ExecutionReport.TrySetProgress | src/libs/core/src/reporting/ExecutionReport.cpp:294-302 | success exactly when the old value matched and the exchange did not fail spuriously; it changes the whole tree as a change of progress does, else nothing |
| Report.ExecutionReport.UpdateProgressFromSubReports | src/libs/core/src/reporting/ExecutionReport.cpp:313-336 | however often the exchange fails, the loop ends with one change to the mean |
| Report.ExecutionReport.SetProgress | src/libs/core/src/reporting/ExecutionReport.cpp:285-292 | the values of the whole tree afterwards: the change, its events and its propagation through parents |
| Report.ExecutionReport.SetProgressFromInt | src/libs/core/headers/ez/reporting/Types.hpp:63-63 | setting a progress from an int sets what its low byte clamps to |
| Report.ExecutionReport.SetStatus | src/libs/core/src/reporting/ExecutionReport.cpp:264-283 | the values of the whole tree afterwards: status, sticky flags, events, full progress on Finished, cascade on Cancelled |
| Report.ExecutionReport.IsBusy | src/libs/core/src/reporting/ExecutionReport.cpp:345-353 | the two recursive loops decide whether the report or any below it is busy |
| Report.ExecutionReport.Log | src/libs/core/src/reporting/ExecutionReport.cpp:198-212 | warnings and errors raise their sticky flag and nothing else does; one event is delivered |
| Report.GuardFinish | src/libs/core/src/reporting/ExecutionStatusGuard.cpp:24-77 | the values of the whole tree afterwards, sub reports visited in order |
| Report.GuardInit | src/libs/core/src/reporting/ExecutionStatusGuard.cpp:16-22 | only a pending report is set running |
| ReportProgressLaws.MeanWithinActiveSubs | src/libs/core/src/reporting/ExecutionReport.cpp:315-329 | the mean lies between any bounds on the active sub reports |
| ReportProgressLaws.MeanIsUnclamped | src/libs/core/headers/ez/reporting/Types.hpp:65-80 | neither the byte cast nor the clamp ever changes a mean |
| ReportProgressLaws.ChangeReachesTheChain | src/libs/core/src/reporting/ExecutionReport.cpp:285-336 | after a change every ancestor joined by non-zero weights has the rounded mean of its sub reports as they now are, and no other report's progress changed |
| ReportProgressLaws.ChangeIsHeardAlongTheChain | src/libs/core/src/reporting/ExecutionReport.cpp:409-425 | each updated report raises exactly one event, innermost first, heard by itself and its ancestors; nothing but progress and events changes |
| ReportProgressLaws.RaisingNeverLowers | src/libs/core/src/reporting/ExecutionReport.cpp:313-336 | raising a report lowers no report as long as its ancestors were consistent |
| ReportProgressLaws.LeafUpdateKeepsConsistency | src/libs/core/src/reporting/ExecutionReport.cpp:313-336 | setting a report without active sub reports keeps every report at its rounded mean |
| ReportProgressLaws.RoundingErrorBound | src/libs/core/src/reporting/ExecutionReport.cpp:315-329 | in a consistent tree every report is off the exact nested weighted mean of its leaves by at most half a point per level of nesting |
| ReportProgressLaws.LeafRunsStayNearExact | src/libs/core/src/reporting/ExecutionReport.cpp:285-336 | in a tree built first, every run of leaf updates leaves every report at its rounded mean and within that bound |
| ReportStatusLaws.SetStatusMeans | src/libs/core/src/reporting/ExecutionReport.cpp:264-275 | setting another status, short of a cancellation, changes that report's status alone, raises the error flag exactly for Error and the warning flag exactly for Warning, and is heard once, before the events of the progress a finish sets |
| ReportStatusLaws.FinishedShowsFullProgress | src/libs/core/src/reporting/ExecutionReport.cpp:274-292 | a report set Finished shows 100; unless it did before, each ancestor joined to it shows the mean of its sub reports as they now are, and no other progress changes |
| ReportStatusLaws.OtherStatusesKeepProgress | src/libs/core/src/reporting/ExecutionReport.cpp:264-283 | no status but Finished changes any progress |
| ReportStatusLaws.SettingAgainIsSilent | src/libs/core/src/reporting/ExecutionReport.cpp:264-292 | setting the same status or progress again changes nothing and raises no event |
| ReportStatusLaws.BusyIff | src/libs/core/src/reporting/ExecutionReport.cpp:345-353 | busy exactly when the report or one below it is not final |
| ReportStatusLaws.CancelHitsExactly | src/libs/core/src/reporting/ExecutionReport.cpp:264-283 | cancelling a report not yet cancelled cancels exactly the reports it hits, with one event each in pre-order heard upwards, and changes nothing else |
| ReportStatusLaws.HitIffReached | src/libs/core/src/reporting/ExecutionReport.cpp:277-281 | a report is hit exactly when all reports from it up to below the cancelled one are not final |
| ReportStatusLaws.HitsAreDistinct | src/libs/core/src/reporting/ExecutionReport.cpp:277-281 | no report is hit twice |
| ReportStatusLaws.BusyAfterCancelIff | src/libs/core/src/reporting/ExecutionReport.cpp:264-283 | after a cancellation the report is busy exactly when some final report below it was busy before |
| ReportStatusLaws.VerdictFromSubs | src/libs/core/src/reporting/ExecutionStatusGuard.cpp:28-76 | the verdict of a report follows from its own flags and its sub reports' verdicts |
| ReportStatusLaws.FinishAllSettles | src/libs/core/src/reporting/ExecutionStatusGuard.cpp:24-77 | guards of running reports end in any order that ends sub reports first, siblings and separate subtrees interleaved: each ended report gets Error exactly when an error was logged or an exception was in flight in its subtree, else Warning exactly when a warning was logged there, else Finished with full progress; every other report keeps status and flags |
| ReportStatusLaws.FinishedTreeIsNotBusy | src/libs/core/src/reporting/ExecutionStatusGuard.cpp:24-77 | after any such order no ended report is busy |
| ReportStatusLaws.GuardFinishOutcome | src/libs/core/src/reporting/ExecutionStatusGuard.cpp:24-77 | what one guard's end does on any tree: pending sub reports are cancelled, running ones end as Error or Warning if they logged one, others keep their status; a report that runs or was asked to cancel ends with the worst of its own flags, an exception in flight and its sub reports |
| ReportStatusLaws.FinishSubIsFinalIff | src/libs/core/src/reporting/ExecutionStatusGuard.cpp:31-58 | finishing a report leaves a sub report final except when it was asked to cancel or runs without a logged warning or error |
| ReportRunLaws.LogsDecideTheVerdict | src/libs/core/src/reporting/ExecutionReport.cpp:198-212 | over every interleaving of guards and log calls on a tree in which sub reports end first: a report ends as Error exactly when it or one below it was logged an error, had the flag before or ended under an exception, else as Warning exactly when a warning was logged there, else as Finished with full progress; until it ends its flags say what was logged to it, and no message changes a status |
| ReportRunLaws.LogsAreHeard | src/libs/core/src/reporting/ExecutionReport.cpp:198-212 | a message is heard once by the report and all above it, and changes neither status nor progress |
| ReportExamples.QuietSubReportStaysRunning | src/libs/core/src/reporting/ExecutionStatusGuard.cpp:31-58 | a report can finish while a sub report of it still runs |
| AtomicProtocol.StepKeepsLocks | src/libs/core/headers/ez/Atomic.hpp:44-82 | every step keeps mutexes and holders in agreement, with no writer sharing a lock |
| AtomicProtocol.WriterIsAlone | src/libs/core/headers/ez/Atomic.hpp:44-82 | a thread with the unique lock is the only one holding the mutex in any mode |
| AtomicProtocol.CommitIsOneCall | src/libs/core/headers/ez/Atomic.hpp:150-166 | a copy made word by word publishes exactly what the right-hand side holds at that instant; likewise reads and edits |
| AtomicProtocol.RunsAreSequential | src/libs/core/headers/ez/Atomic.hpp:150-202 | for any threads, objects and interleaving, the published values are those of running the calls one after the other in an order that respects each thread and places each call between its first and last step; each read returned and each assignment stored its source's value at that point |
| AtomicProtocol.FinishedRunsLeaveTheReplay | src/libs/core/headers/ez/Atomic.hpp:150-202 | once all threads are through, the objects hold the result of that sequential run of all calls |
| AtomicProtocol.RunsNeverDeadlock | src/libs/core/headers/ez/Atomic.hpp:154-164 | in every reachable state with unfinished work some thread can step, with or without writer preference and also for plain mutexes |
| WhenAll.RunsKeepTheCount | src/libs/async/headers/ez/async/detail/WhenAll.hpp:16-50 | in every interleaving remaining count, completed tasks and the awaiter's share add up to N + 1, and no decrement wraps |
| WhenAll.ResumedByTheLastOnly | src/libs/async/headers/ez/async/detail/WhenAll.hpp:123-141 | whoever is about to resume is the last of all N to complete, the continuation is set, all outcomes are stored and nobody resumed before |
| WhenAll.ResumedExactlyOnce | src/libs/async/headers/ez/async/detail/WhenAll.hpp:103-108 | once all have completed and nothing is pending, there was exactly one resumption |
| WhenAll.CompleteInOrder | src/libs/async/headers/ez/async/detail/WhenAll.hpp:16-50 | on one latch object the tasks complete in any order: that is a run of the transition system, and the coroutine is resumed by the last of all and not before |
| WhenAll.AwaitResume | src/libs/async/headers/ez/async/detail/WhenAll.hpp:92-100 | all values in order, or the end of the program exactly when one threw |
| WhenAny.RunsKeepTheCount | src/libs/async/headers/ez/async/detail/WhenAny.hpp:36-53 | in every interleaving the finished count is the number of completed tasks, each of which found a different count, one of them 0 |
| WhenAny.ResumedByTheFirstOnly | src/libs/async/headers/ez/async/detail/WhenAny.hpp:43-48 | whoever is about to resume completed before every other, and nobody resumed before |
| WhenAny.ResumedExactlyOnce | src/libs/async/headers/ez/async/detail/WhenAny.hpp:144-149 | as soon as one has completed and no resumption is due, exactly one has happened |
| WhenAny.CompleteInOrder | src/libs/async/headers/ez/async/detail/WhenAny.hpp:36-53 | on one latch object the tasks complete in any order: that is a run of the transition system, and the coroutine is resumed by the first alone |
| WhenAny.AwaitResume | src/libs/async/headers/ez/async/detail/WhenAny.hpp:107-123 | the loop over the tasks delivers what `Delivered` says of the outcomes it finds |
| WhenAny.LastIsDeliveredIff | src/libs/async/headers/ez/async/detail/WhenAny.hpp:117-121 | the last done task in tuple order decides, exactly unless an earlier done one threw something else |
| WhenAny.EarlierExceptionWins | src/libs/async/headers/ez/async/detail/WhenAny.hpp:117-121 | an earlier exception is delivered instead of a later value |
| WhenAny.ResumedAwaiterDelivers | src/libs/async/headers/ez/async/detail/WhenAny.hpp:107-149 | a resumed awaiter always delivers an outcome some task stored, and a sole finisher's own |
| StableVector.AppendOnlyStableVector.Append | src/libs/core/headers/ez/reporting/AppendOnlyStableVector.hpp:18-30 | the contents grow by one element at the end and every block only at its own end |
| StableVector.AppendOnlyStableVector.At | src/libs/core/headers/ez/reporting/AppendOnlyStableVector.hpp:32-41 | block and offset find the element of that index in the append history |
| StableVector.AppendOnlyStableVector.Last | src/libs/core/headers/ez/reporting/AppendOnlyStableVector.hpp:43-47 | the last element appended |
| StableVector.AppendOnlyStableVector.Visit | src/libs/core/headers/ez/reporting/AppendOnlyStableVector.hpp:53-68 | the counting visit hands out all elements in order |
| StableVector.AppendOnlyStableVector.VisitWhileTrue | src/libs/core/headers/ez/reporting/AppendOnlyStableVector.hpp:87-102 | the visit hands out elements in order up to the first the visitor refuses |
| StableVectorReaders.ReadersVisitTheFirstElements | src/libs/core/headers/ez/reporting/AppendOnlyStableVector.hpp:70-114 | under every interleaving with the writer a reader that found size n visits exactly the first n elements ever appended, in order |
| StableVectorReaders.ElementsNeverMove | src/libs/core/headers/ez/reporting/AppendOnlyStableVector.hpp:105-114 | over every run what is stored keeps its block, offset and value |
| StableVectorReaders.AtFindsTheElement | src/libs/core/headers/ez/reporting/AppendOnlyStableVector.hpp:32-41 | an index below a size read earlier finds the element of that index however much is appended meanwhile |
| StableVectorReaders.ReaderCanMove | src/libs/core/headers/ez/reporting/AppendOnlyStableVector.hpp:78-84 | a visiting reader never gets stuck |
| Ranges.OverlapIff | src/apps/algo/main.cpp:31-43 | for non-empty ranges the four tests hold exactly when neither lies before the other, exactly when a point is shared; the overlap is non-empty and has exactly the shared points |
| Ranges.EqualRange | src/apps/algo/main.cpp:52-53 | the two binary searches under the non-total comparator select exactly the ranges that overlap |
| Ranges.Merge | src/apps/algo/main.cpp:45-60 | the result covers exactly the points both lists cover, is sorted and disjoint, has at most one range fewer than the inputs together, and every overlap taken exists |
| Ranges.MergedCommutes | src/apps/algo/main.cpp:45-60 | merging does not depend on which list comes first |
| Ranges.MergedIsShort | src/apps/algo/main.cpp:45-60 | for non-empty inputs the result has at most as many ranges as both inputs together, less one |
| CowCells.SoleSharerIff | src/libs/core/headers/ez/Cow.hpp:181-191 | a count of 1 means the handle is alone on its cell, and conversely |
| CowCells.Cow.Edit | src/libs/core/headers/ez/Cow.hpp:193-199 | the value changes through this handle alone, which ends up alone on its cell |
| CowCells.Cow.Assign | src/libs/core/headers/ez/Cow.hpp:49-51 | the handle takes over the other's value; all counts stay exact, also when both already share a cell |
| CowCells.Cow.Detach | src/libs/core/headers/ez/Cow.hpp:220-224 | no value changes and the handle ends up alone on a fresh cell |
| CowCells.Cow.AssignValue | src/libs/core/headers/ez/Cow.hpp:201-206 | assigning a value is an edit seen through this handle alone |
| CowCells.Execute | src/libs/core/headers/ez/Cow.hpp:181-224 | any run of makes, copies, assignments, edits, detaches and drops leaves each handle with the value the same run gives independent values, and every count equal to the number of handles on the cell |
| CowCells.Cow.UseCount | src/libs/core/headers/ez/Cow.hpp:187-191 | the number of live handles on the cell |
| JsonConversion.EncodesIff | src/libs/flow/src/engine/conversion/json.hpp:14-47 | the conversion gives the one JSON value that is of the same kind with the same content at every depth, elements and members standing for the supported ones in order and under their keys |
| JsonConversion.DecodesIff | src/libs/flow/src/engine/conversion/json.hpp:49-95 | and back: the one entity of the same kind and content, nulls skipped, unsigned integers equal modulo 2 to the 64th |
| JsonConversion.WrappedIsCongruent | src/libs/flow/src/engine/conversion/json.hpp:58-59 | the cast gives the one signed integer congruent modulo 2 to the 64th |
| JsonConversion.ArrayToJson | src/libs/flow/src/engine/conversion/json.hpp:14-30 | the filling loop gives the JSON that stands for the array, unsupported values skipped |
| JsonConversion.DictionaryToJson | src/libs/flow/src/engine/conversion/json.hpp:32-47 | likewise for dictionaries, in any key order |
| JsonConversion.ArrayFromJson | src/libs/flow/src/engine/conversion/json.hpp:49-71 | likewise back, nulls skipped and unsigned integers cast |
| JsonConversion.DictionaryFromJson | src/libs/flow/src/engine/conversion/json.hpp:73-95 | likewise back for objects |
| JsonConversion.RoundTripPrunes | src/libs/flow/src/engine/conversion/json.hpp:14-95 | to JSON and back is the original with every unsupported value removed at every depth |
| JsonConversion.RoundTripIsIdentityIff | src/libs/flow/src/engine/conversion/json.hpp:14-95 | it is the original exactly when it held no unsupported value |
| JsonConversion.BackTripNormalizes | src/libs/flow/src/engine/conversion/json.hpp:14-95 | from JSON and back drops every null and casts every unsigned integer at every depth, and changes nothing else |
| JsonConversion.BackTripIsIdentityIff | src/libs/flow/src/engine/conversion/json.hpp:14-95 | it is the identity exactly when there is no null and no unsigned integer |
| JsonConversion.BackTripLoses | src/libs/flow/src/engine/conversion/json.hpp:49-71 | a null in an array is lost and a large unsigned integer comes back negative |

## Left out

- FlowInterpreter.Interpreter.EvalScope: says nothing about the scopes an evaluation error or an abandoned workflow leaves behind; the engine stops at the first error.
- FlowInterpreter.Interpreter.EvalInvocation: the time-out race of an await is not modelled, a workflow runs to completion; the awaits on actions, campaigns, device info and HTTP are foreign calls.
- FlowInterpreter.Interpreter.EvalExpression: an identifier path is a single name; the property lookups along longer paths are left out.
- FlowInterpreter.Interpreter.EvalTerms: `*`, `/`, real arithmetic, unary, logical, `in` and `is` operators and properties are left out.
- FlowInterpreter.Interpreter.EvalFunctionCall: member functions, what `println` and `panic` write, and what `str_format` fills in are left out; a run that reaches such a format ends with the error `NotModelled`.
- FlowInterpreter.Interpreter.Assign: assigning a real to an integer and assigning arrays are left out, as arrays, dictionaries and reals are no values of the model.
- Delay and import statements, the parser and the exporter of the flow language.
- Report.ExecutionReport.SetProgress: several writers on one tree, the expiry of weak parent pointers and observers that change reports are left out.
- Report.ExecutionReport.AddSubReport: adding a report to itself or to one below it is left out, as the walk up the parents that follows would never end.
- The messages and sub items a report stores, names, times and flags; `set_progress(current, total)`.
- AtomicProtocol.RunsAreSequential: move operations, copy construction, the arrow operators and memory orders weaker than sequential consistency are left out.
- WhenAll.ResumedByTheLastOnly: the boolean result of `await_suspend`, coroutine lifetimes and moving a latch are left out.
- WhenAny.ResumedByTheFirstOnly: likewise, and the merging of different return types.
- StableVectorReaders.ReadersVisitTheFirstElements: growing, storing and publishing are one step each, sequentially consistent; tearing inside the list or a block is not modelled.
- Ranges.Merge: lists that are unsorted, overlapping or hold an empty range violate what the binary search needs and are excluded.
- CowCells.Cow.Assign: conversions between handles of derived types and moved-from handles are left out.
- JsonConversion.DictionaryToJson: the order of the members of an object is not modelled, and a JSON real is an exact number.
- Wall clocks, I/O, RPC, protobuf, loggers, process spawning, task pools and the compile-time helpers of the core library.

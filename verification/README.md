# Verified model of the n8n command-line backend's stateful core

n8n runs workflows. Its backend (`packages/cli`) keeps track of running and waiting executions, resumes waiting ones,
activates workflows on one of several main instances, and resolves credentials through a type hierarchy and an
administrator's overwrites. This project models those parts in Dafny and proves what they promise, or exactly when
they keep a promise. `dafny verify dfyconfig.toml` checks everything.

| file | what it models |
|---|---|
| `CredentialTypes.dfy` | the ancestor lookup that iterates over the list it appends to |
| `CredentialsOverwrites.dfy` | flattening the overwrite table in place, looking it up, saving, reloading and applying it |
| `StoredOverwrites.dfy` | which inherited fields the flattened table stores, by key order |
| `Wrappers.dfy`, `Runs.dfy` | optional values; runs of a state machine and when they keep a rule |
| `ActiveExecutions.dfy` | one process: registering, stopping, settling, cleaning up, capacity, shutdown |
| `ExecutionCluster.dfy` | many processes that share the execution table, as a state machine cut at every `await` |
| `ExecutionLife.dfy` | what each step of that machine leaves behind; that executions can be started, parked, resumed and finished |
| `ParentResume.dfy` | children of a waiting parent that race to write their output and to resume it |
| `WaitTracker.dfy` | the timers of waiting executions, across polls, starts and changes of leadership |
| `ActivationQueue.dfy` | retries of failed activations with a capped exponential delay |
| `MultiMain.dfy`, `LostTriggers.dfy` | triggers and crons held in memory across take-overs and step-downs; how they get lost |
| `ActivationProgress.dfy` | that a leader starts what it is told to, and that removals and step-downs can finish |
| `Webhooks.dfy` | registering a workflow's webhooks with a clean-up on failure |
| `CredentialRepair.dfy` | repairing the credentials of nodes through two caches |
| `CredentialLookup.dfy` | which record a repaired credential leads to, node by node |
| `Deadlines.dfy` | deadlines of nested sub-workflows, and of executions that wait and are resumed |
| `NodeGroups.dfy` | validation of node groups |
| `ConcurrencyQueue.dfy` | the queue of throttled executions |

## How to read it

Code that updates state is a class or a method with loops; its contract ties the new state to a function of the old
one. What the code promises is then proved about those functions: invariants of every step, properties of whole runs,
and agreement with an independent description. Where the code keeps a promise only sometimes, a lemma gives the
exact condition and, where it matters, a concrete run that breaks it:

- flattening keeps the meaning of overwrites exactly under single inheritance (`CredentialsOverwrites.MeaningKeptExactly`;
  `TwoParentsLoseMeaning` gives a table for any other hierarchy);
- a child that writes to its parent one wait period late brings an old stack back (`ParentResume.LateWriteRestoresOldStack`,
  `OwnStackThroughoutExactly`), and a child of an earlier wait leaves its output to a later one (`OwnOutputThroughoutExactly`). The comment at
  packages/cli/src/workflow-helpers.ts:397-402 calls the race harmless; within one wait period it is (`WinnerResumesOwnStack`);
- the check of the role when an activation begins, which the comment at packages/cli/src/active-workflow-manager.ts:1126-1127 relies on, does not
  keep a workflow on one instance by itself. `MultiMain.AccountedThroughoutExactly` says which steps lose track of triggers or crons, and `LostTriggers`
  has a run for each: an add that outlives the lead, an update whose removal deletes the new entry, a second add, a
  close that throws, a cron registered late, a poller that fails after another. A cron that is left over does not fire
  while its instance follows (packages/core/src/execution-engine/scheduled-task-manager.ts:86);
- storing a webhook takes over another workflow's row with the same method and path (`Webhooks.PathIsTakenOver`,
  `OthersUnchangedExactly`). Activating through packages/cli/src/workflows/workflow.service.ts:735 rejects such a path first; the import at
  packages/cli/src/services/import.service.ts:244 and two activations at the same time get past that check;
- credentials are repaired independently of each other exactly if no later one repeats a hopeless type and id under
  another name (`CredentialRepair.SecondNameIsReplaced`, `RepairedIndependentlyExactly`);
- a row that is cancelled after `add` has returned is set running again (`ExecutionLife.CancellationIsOverwritten`);
- a workflow whose retry returns without activating it stays queued with nothing to retry it
  (`ActivationQueue.QueuedAreServedExactly`);
- removing one of several throttled executions lets another through beyond the limit
  (`ConcurrencyQueue.RemovalExceedsLimit`, `LimitKeptExactly`);
- after a step-down the tracker keeps entries without timers, and later polls skip them
  (`WaitTracker.ForgottenAfterStepDown`, `StaleStaysStale`);
- a group with an empty name does not claim its nodes (`NodeGroups.NamelessGroupSharesNode`, `ValidateNodeGroups`), although the
  comment above the code says that each node belongs to at most one group. Requests must name their groups
  (packages/@n8n/api-types/src/dto/workflows/base-workflow.dto.ts:78); a workflow imported from source control need not
  (packages/cli/src/modules/source-control.ee/source-control-import.service.ee.ts:757);
- a retry that fails after its workflow left the queue reads an entry that is gone, and one that fails after its workflow
  was queued anew orphans a timer (`ActivationQueue.FailedSaveCrashes`, `RetriesHandledExactly`).

## Assumptions

- `ExecutionCluster`: a waiting entry has settled by the time it is stopped or replaced, as the comment at
  packages/cli/src/active-executions.ts:213-214 relies on; `ActiveExecutions.StopValid` and `RegisterValid` show that this is exactly what is
  needed, and `StoppedTooEarlyIsLost` what happens otherwise. Only an execution that has neither settled nor written its row
  for the last time changes its status, and none goes back to being new. An execution parks its row while its status is
  waiting and before it settles. The database update is atomic.
- `MultiMain`: an instance takes over only when no other leads or is still stepping down.
- `CredentialTypes`, `CredentialsOverwrites`: the `extends` graph is acyclic, witnessed by a rank. The order in which the keys of a table are
  enumerated is a parameter.
- `CredentialRepair`: the database does not change during the pass, and ids are unique in it.
- `Deadlines`: clock readings are not negative.

## Model

| member | source | states |
|---|---|---|
| `CredentialTypes.GetParentTypes` | packages/cli/src/credential-types.ts:26-38 | The loop that appends to the list it iterates ends on every acyclic hierarchy, with the list that a level-by-level description without the loop gives; the measure is the distance to that finished list |
| `CredentialTypes.LevelsFixpoint` | packages/cli/src/credential-types.ts:31-37 | The finished list is the type's own parents followed by the parent lists of all of its own elements, in order: the fixed point the loop runs towards |
| `CredentialTypes.PushStep` | packages/cli/src/credential-types.ts:33-35 | One round keeps the growing list a prefix of the finished one |
| `CredentialTypes.PrefixIsWhole` | packages/cli/src/credential-types.ts:33-37 | When every element has been processed nothing is missing: no non-empty remainder could reproduce itself in an acyclic hierarchy |
| `CredentialTypes.ParentTypesAreAncestors` | packages/cli/src/credential-types.ts:23-38 | A type is in the result if and only if it is reached by following `extends` one or more times |
| `CredentialTypes.ParentTypesNearestFirst` | packages/cli/src/credential-types.ts:26-38 | Under single inheritance the first occurrences in the result, which repeats types, are the line of ancestors, nearest first |
| `CredentialTypes.OnlyParentFirst` | packages/cli/src/credential-types.ts:31-37 | A type with one parent gets that parent, the parent's list, and after that only repeats |
| `CredentialsOverwrites.Service.GetOverwrites` | packages/cli/src/credentials-overwrites.ts:177-207 | The memoised recursion over the `extends` lists, with its four ways out, gives the overwrites and marks the types that a description without state does, and leaves the table alone |
| `CredentialsOverwrites.Service.SetPlainData` | packages/cli/src/credentials-overwrites.ts:102-115 | Takes over the caller's table object and flattens it where it lies; under single inheritance no type's effective overwrites change, whatever the key order |
| `CredentialsOverwrites.Service.SetData` | packages/cli/src/credentials-overwrites.ts:117-125 | What is saved is the caller's table as flattened in place, and only if asked to and if persistence is on |
| `CredentialsOverwrites.Service.LoadFromDB` | packages/cli/src/credentials-overwrites.ts:56-76 | The saved table is flattened again in a new object and not saved; a load during a load, an unreadable row and a missing row leave table and marks alone |
| `CredentialsOverwrites.Service.Get` | packages/cli/src/credentials-overwrites.ts:209-222 | The assignment from the farthest ancestor to the type itself gives the layered overwrites, and none exactly if no type of the line is in the table |
| `CredentialsOverwrites.Service.ApplyOverwrite` | packages/cli/src/credentials-overwrites.ts:139-175 | The credential comes out as the pure rule for overwrites says, including the early returns for no overwrites and for a customised skip-list type |
| `CredentialsOverwrites.Service.FillBlanks` | packages/cli/src/credentials-overwrites.ts:165-174 | Whatever order the keys are visited in, exactly the blank overwritten fields are filled |
| `CredentialsOverwrites.GetIsNearest` | packages/cli/src/credentials-overwrites.ts:209-222 | Under single inheritance a lookup answers every field from the nearest type of the line that defines it |
| `CredentialsOverwrites.OverwritesAgree` | packages/cli/src/credentials-overwrites.ts:177-207 | In any table reached while flattening, resolved or not, the merged overwrites of a type only hold nearest-ancestor values of the raw table and lose none of the type's own fields |
| `CredentialsOverwrites.FlattenSound` | packages/cli/src/credentials-overwrites.ts:108-114 | The loop keeps that invariant: every stored value is the raw table's nearest-ancestor value, although the table may be incomplete |
| `CredentialsOverwrites.SoundKeepsEffective` | packages/cli/src/credentials-overwrites.ts:177-222 | What an incomplete table left out, the lookup's own walk finds again |
| `CredentialsOverwrites.SingleInheritanceKeepsMeaning` | packages/cli/src/credentials-overwrites.ts:102-115 | For every single-inheritance acyclic hierarchy, raw table, key order and type, the effective overwrites after `setPlainData` are those of the raw table |
| `CredentialsOverwrites.TwoParentsLoseMeaning` | packages/cli/src/credentials-overwrites.ts:195-222 | For any type with two different parents there are a table and a key order that flattening changes: the lookup prefers the first parent, the merge the last |
| `CredentialsOverwrites.MeaningKeptExactly` | packages/cli/src/credentials-overwrites.ts:102-222 | Flattening keeps the meaning of all tables in all key orders if and only if the hierarchy has single inheritance |
| `CredentialsOverwrites.ReloadKeepsMeaning` | packages/cli/src/credentials-overwrites.ts:56-130 | Saving the flattened table and loading it, any number of times in any key orders, gives every type the overwrites of the original input |
| `CredentialsOverwrites.AppliedIsIdempotent` | packages/cli/src/credentials-overwrites.ts:139-175 | Applying overwrites twice is applying them once, for ordinary and for skip-list types |
| `CredentialsOverwrites.AppliedMeaning` | packages/cli/src/credentials-overwrites.ts:139-175 | For every field of every credential, after flattening under single inheritance: on the skip list, a credential in which the user has filled in some field differently from the nearest type that defines it stays as it is; otherwise a field with a value keeps it, any other gets the value of the nearest type that defines it, and stays if none does |
| `CredentialsOverwrites.GetFindsSomethingExactly` | packages/cli/src/credentials-overwrites.ts:209-222 | A lookup answers at all if and only if the type or one of its ancestors is in the table |
| `StoredOverwrites.OverwritesHoldAll` | packages/cli/src/credentials-overwrites.ts:194-206 | Under single inheritance, if the type and its ancestors are known and none has been resolved, the merged overwrites hold exactly what the table gives the type, own and inherited: for every key the value of the nearest type, and nothing if no type defines it |
| `StoredOverwrites.EachTypeMarkedOnce` | packages/cli/src/credentials-overwrites.ts:177-207 | A call only appends marks, no type twice and none of higher rank; a known type is marked afterwards, an unknown one has no overwrites and changes no mark |
| `StoredOverwrites.FirstKeyIsComplete` | packages/cli/src/credentials-overwrites.ts:102-115 | The first key that flattening visits is stored with everything it inherits |
| `StoredOverwrites.VisitParentsFirst` | packages/cli/src/credentials-overwrites.ts:177-207 | A key whose parent has been visited and completed gets everything it inherits and marks itself alone |
| `StoredOverwrites.ParentsFirstStoresAll` | packages/cli/src/credentials-overwrites.ts:102-115 | If parents are visited before their children, every type of the table is stored with everything it inherits |
| `StoredOverwrites.ChildFirstStoresLess` | packages/cli/src/credentials-overwrites.ts:182-184 | A concrete case in the other order: a parent that was resolved on behalf of its child is stored without what it inherits itself |
| `ActiveExecutions.BeginValid` | packages/cli/src/active-executions.ts:62-70 | Entering `add` keeps the invariant of a process: capacity taken is that of calls that have reserved and of objects whose clean-up has not run, and an object that is not the entry of its id is settled and waiting or cleaned up |
| `ActiveExecutions.GrantValid` | packages/cli/src/concurrency/concurrency-capacity-reservation.ts:23-28 | A granted reservation adds exactly the calling run to those that hold capacity |
| `ActiveExecutions.WrittenValid` | packages/cli/src/active-executions.ts:94-120 | The database write of `add` moves no capacity |
| `ActiveExecutions.FailValid` | packages/cli/src/active-executions.ts:122-125 | A failing `add` gives back what it reserved, if anything, and leaves the registry as it was |
| `ActiveExecutions.RegisterValid` | packages/cli/src/active-executions.ts:128-140 | A resumed execution takes the place of an entry without losing capacity if and only if that entry has settled and is waiting |
| `ActiveExecutions.SetStatusValid` | packages/cli/src/active-executions.ts:292-294 | A status change keeps the invariant if and only if it does not go back to new, nor away from waiting once the entry has been cleaned up; no capacity moves |
| `ActiveExecutions.FinalizeValid` | packages/cli/src/active-executions.ts:225-244 | Settling an entry keeps the invariant; capacity moves only with the clean-up |
| `ActiveExecutions.StopValid` | packages/cli/src/active-executions.ts:195-222 | Stopping loses no capacity if and only if the entry, should it be waiting, has settled |
| `ActiveExecutions.CleanUpValid` | packages/cli/src/active-executions.ts:142-158 | The deferred clean-up releases the run's capacity once and removes its own entry or none: never the entry of the resumed execution that took its id |
| `ActiveExecutions.StoppedTooEarlyIsLost` | packages/cli/src/active-executions.ts:212-216 | Without the assumption in the code's comment: a waiting entry that is stopped before it settles keeps its capacity, and neither finalising nor stopping can reach it again |
| `ActiveExecutions.ReleaseOnce` | packages/cli/src/concurrency/concurrency-capacity-reservation.ts:30-36 | A reservation is given back once: the run leaves the holders of capacity, the count follows them, and a second release changes nothing |
| `ActiveExecutions.Registry.ReleaseReservation` | packages/cli/src/concurrency/concurrency-capacity-reservation.ts:30-36 | The run leaves the holders of capacity, once however often it is called, and the count stays that of the holders |
| `ActiveExecutions.Registry.CompleteAdd` | packages/cli/src/active-executions.ts:127-140 | The part of `add` after its last await: the run becomes the entry of its id, running, started when the entry it replaces was, or now if there is none; no other entry or run changes; the invariant is kept exactly if what it replaces has settled and is waiting |
| `ActiveExecutions.Registry.AssignStatus` | packages/cli/src/active-executions.ts:292-294 | Without an entry nothing changes and the failure is reported; otherwise the invariant is kept under exactly the condition of `SetStatusValid` |
| `ActiveExecutions.Registry.FinalizeExecution` | packages/cli/src/active-executions.ts:225-244 | Settles the entry, keeping the invariant, and does nothing without one |
| `ActiveExecutions.Registry.StopExecution` | packages/cli/src/active-executions.ts:195-222 | A waiting entry is deleted at once, any other is settled; the invariant is kept exactly if a waiting entry had settled |
| `ActiveExecutions.Registry.RunCleanUp` | packages/cli/src/active-executions.ts:148-158 | The deferred clean-up, keeping the invariant where it holds and the entries in order in any case |
| `ActiveExecutions.Registry.CancelOrDrop` | packages/cli/src/active-executions.ts:317-328 | From any registry, settled or not: every waiting entry is gone, every other is left with its status and, if all were cancelled, settled; no capacity is lost if what waited had settled |
| `ActiveExecutions.Registry.PollUntilEmpty` | packages/cli/src/active-executions.ts:332-341 | The polling loop ends if everything left has settled, and in a valid process exactly if every entry has settled or is among the executions that finish meanwhile |
| `ActiveExecutions.Registry.KeepPolling` | packages/cli/src/active-executions.ts:334-341 | The loop: what is left is, in a valid process exactly, what had not settled and has not finished since |
| `ActiveExecutions.Registry.RunDueCleanUps` | packages/cli/src/active-executions.ts:148-158 | The clean-ups that are due run in any order until none is; of valid entries exactly the settled ones that do not wait go |
| `ActiveExecutions.Registry.Shutdown` | packages/cli/src/active-executions.ts:309-342 | With `cancelAll` any registry whose entries are in order is drained, whether or not what waits has settled and without any execution having to finish by itself; without it, in a valid process, exactly if all that neither waits nor has settled finishes meanwhile |
| `ActiveExecutions.DrainStop` | packages/cli/src/active-executions.ts:319-328 | One round of the shutdown loop, from any state: exactly the waiting entry goes, or the entry is settled or kept |
| `ActiveExecutions.DrainStopValid` | packages/cli/src/active-executions.ts:319-328 | No round loses capacity if what was waiting at the start had settled |
| `ActiveExecutions.WhatShutDownLeaves` | packages/cli/src/active-executions.ts:319-328 | After the loop nothing waits, everything is settled if all was cancelled, and the rest is as it was |
| `ActiveExecutions.DrainCleanUp` | packages/cli/src/active-executions.ts:148-158 | Each clean-up makes the set of those due smaller and changes no status; of valid entries it removes at most its own |
| `ActiveExecutions.RemainingNext` | packages/cli/src/active-executions.ts:334-341 | One round of the polling loop in which an execution finishes: what is left is still what had not settled and has not finished |
| `ExecutionCluster.ReplacedIsWaiting` | packages/cli/src/active-executions.ts:129-140 | In any process of the cluster a resume only ever replaces an entry whose status is waiting |
| `ExecutionCluster.ProcessStaysValid` | packages/cli/src/active-executions.ts:62-163 | Every step between awaits keeps every process valid |
| `ExecutionCluster.CompareAndSetKeepsOwnership` | packages/@n8n/db/src/repositories/execution.repository.ts:428-452 | The conditional update makes its run the only owner of the execution in the cluster, or changes no ownership |
| `ExecutionCluster.LastWriteKeepsOwnership` | packages/@n8n/db/src/repositories/execution.repository.ts:406-453 | The write that parks or ends an execution gives its ownership up |
| `ExecutionCluster.StepKeepsInv` | packages/cli/src/active-executions.ts:62-244 | Every step keeps the cluster invariant: valid processes, at most one owner of an execution, no owner of a waiting row, nothing after the end |
| `ExecutionCluster.RunKeepsInv` | packages/cli/src/active-executions.ts:62-244 | The cluster invariant holds throughout every run, with any number of processes |
| `ExecutionCluster.ReachableIsSafe` | packages/cli/src/active-executions.ts:62-244 | From the empty cluster, in every reachable state: one owner of each execution at most, capacity taken is that of calls that have reserved and of objects not cleaned up, and an object whose clean-up may delete an entry is that entry |
| `ExecutionCluster.ResumesNeverExceedParks` | packages/cli/src/active-executions.ts:99-121 | Over any run with any number of processes, pollers, stale timers and direct resumes, an execution is resumed at most as often as its row began to wait |
| `ExecutionCluster.CompareAndSetOutcome` | packages/@n8n/db/src/repositories/execution.repository.ts:428-452 | The update with `requireStatus: waiting` succeeds exactly if the row waits, and otherwise changes no row |
| `ExecutionCluster.LoserRollsBack` | packages/cli/src/active-executions.ts:117-125 | A resume that lost gives back its capacity and leaves every row and every registry as it was |
| `ExecutionCluster.HolderCanRelease` | packages/cli/src/active-executions.ts:142-158 | No capacity is lost: every object that holds some is due for clean-up or can still be settled through its entry, and the clean-up then releases it |
| `ExecutionCluster.StepKeepsStartedAt` | packages/cli/src/active-executions.ts:134-134 | No step changes the start time of an execution that stays registered, whichever object stands for it |
| `ExecutionCluster.StartedAtIsKept` | packages/cli/src/active-executions.ts:127-140 | Across any sequence of waits and resumes in one process an execution keeps its start time until it is removed |
| `ExecutionLife.RegisterLeaves` | packages/cli/src/active-executions.ts:127-140 | The end of `add` in one process: the start time is that of the entry it replaces, or now if there is none; the status is running; no other run, no other entry and no capacity changes |
| `ExecutionLife.AddReturnsOutcome` | packages/cli/src/active-executions.ts:127-140 | The same in any state of the cluster: nothing but the one process changes in it |
| `ExecutionLife.CanBeStarted` | packages/cli/src/active-executions.ts:70-98 | From any state a new execution can be started: its four steps are possible and end with a running row, an entry that started now, and one unit of capacity taken |
| `ExecutionLife.CanBeResumed` | packages/cli/src/active-executions.ts:99-140 | From any state a waiting execution can be resumed in any process, taking over the start time of the entry that waits there, or starting now without one |
| `ExecutionLife.LateResumeChangesNothing` | packages/cli/src/active-executions.ts:99-125 | A resume may begin whatever the row says; if the execution does not wait, its four steps leave rows, registries and capacity as they were |
| `ExecutionLife.AddCanThrow` | packages/cli/src/active-executions.ts:122-125 | Until it has written its row a call of `add` can throw, and then gives back exactly what it holds |
| `ExecutionLife.CanBeParked` | packages/cli/src/active-executions.ts:142-158 | A running execution can be parked: its row waits, its entry stays, its capacity is given back |
| `ExecutionLife.CanBeFinished` | packages/cli/src/active-executions.ts:142-158 | A running execution can be finished: its row says how, its entry is gone, its capacity is given back |
| `ExecutionLife.EntryCanBeStopped` | packages/cli/src/active-executions.ts:195-222 | An entry can be stopped: if it waits it is forgotten, otherwise settled, and no other entry, row or process changes |
| `ExecutionLife.SettledCanCleanUp` | packages/cli/src/active-executions.ts:142-158 | What has settled can be cleaned up, which gives exactly its own capacity back and removes its entry unless it waits |
| `ExecutionLife.CancellationIsOverwritten` | packages/@n8n/db/src/repositories/execution.repository.ts:374-391 | A row that is cancelled after `add` has returned is set running again by the write of the runner, and is overwritten by the last write of an execution that runs on |
| `ExecutionLife.StepTouchesOnly` | packages/cli/src/active-executions.ts:62-244 | No step changes any process but its own, nor any row but that of its execution |
| `ParentResume.UpdateParentExecution` | packages/cli/src/workflow-helpers.ts:409-441 | Run without interruption: without output data, for a parent that does not wait and for an empty stack nothing changes; otherwise exactly the data of the head changes, to the output |
| `ParentResume.StepKeepsInv` | packages/cli/src/workflow-helpers.ts:414-440 | In any interleaving of the children's reads, writes and resumes, every stack read or stored is one the parent waited with, up to a finished child's output at its head, and a waiting parent has not been resumed in this period |
| `ParentResume.ResumedOncePerPeriod` | packages/cli/src/wait-tracker.ts:131-145 | A resume succeeds exactly if the parent waits, at most once in a wait period; the others change nothing |
| `ParentResume.WritesOnlyIfWaiting` | packages/cli/src/workflow-helpers.ts:414-430 | A child that reads a parent that does not wait, has no output, or finds an empty stack can never write for that read; any other has read exactly what the row holds |
| `ParentResume.OtherStepsKeepRow` | packages/cli/src/workflow-helpers.ts:409-441 | Nothing but a write, a wait or a resume changes the row, and nothing moves a child on but its own steps |
| `ParentResume.ChildGoesOn` | packages/cli/src/wait-tracker.ts:97-137 | Whatever the others do in the meantime, a child can always take its next step |
| `ParentResume.ChildResumesParent` | packages/cli/src/wait-tracker.ts:147-167 | From any state in which the parent waits, a finished child can by itself resume it, with its own output at the head if it has any and everything else as the row had it |
| `ParentResume.StepKeepsInPeriod` | packages/cli/src/workflow-helpers.ts:421-440 | While a wait period lasts, every stack read or stored is of that period, and a child with output that is past its write has left an output at the head |
| `ParentResume.WinnerResumesOwnStack` | packages/cli/src/wait-tracker.ts:147-167 | From the moment a parent begins to wait, in any interleaving within that period: the parent resumes with the stack it waited with up to the head's data, and with some finished child's output there if the child that resumes it has output |
| `ParentResume.StoredStackIsOwnExactly` | packages/cli/src/workflow-helpers.ts:414-440 | When the waits have stacks that differ beyond the head's data, a write or a resume leaves the stack of the current wait in the row if and only if what it stores comes from the current wait |
| `ParentResume.ReadStackIsOwnExactly` | packages/cli/src/workflow-helpers.ts:416-419 | What a child reads comes from the current wait if and only if the row holds that wait's stack: after a stale write, even a fresh read brings the old one |
| `ParentResume.OwnStackThroughoutExactly` | packages/cli/src/workflow-helpers.ts:414-440 | Over any run of a parent whose waits have different stacks, the row always holds the stack of the current wait if and only if no write and no winning resume uses a stack that comes from an earlier wait |
| `ParentResume.StepKeepsOwnOutputExactly` | packages/cli/src/workflow-helpers.ts:432-440 | For any waits, the same node again and again included: a step leaves no output of a child of an earlier wait at the head, if and only if it is not the write of such a child nor a resume that brings one back |
| `ParentResume.OwnOutputThroughoutExactly` | packages/cli/src/workflow-helpers.ts:409-441 | Over any run at all, the head's data is never the output of a child of an earlier wait, if and only if no such write or resume occurs |
| `ParentResume.HeadIsOutput` | packages/cli/src/workflow-helpers.ts:435-435 | What a child has put at the head is that child's output |
| `ParentResume.LateWriteRestoresOldStack` | packages/cli/src/workflow-helpers.ts:416-440 | A concrete run in which a write that is one wait period late brings an old stack back and the parent resumes with it |
| `WaitTracker.TrackerService.GetWaitingExecutions` | packages/cli/src/wait-tracker.ts:59-87 | The loop tracks each returned execution that has no entry yet, and keeps entries and timers in step |
| `WaitTracker.TrackerService.StartTracking` | packages/cli/src/wait-tracker.ts:48-57 | Arms the poll and polls once |
| `WaitTracker.TrackerService.StopTrackedExecution` | packages/cli/src/wait-tracker.ts:89-95 | The entry goes with its own timer, and entries and timers stay in step; no other execution is affected, and the stopped one stays armed exactly if an earlier start has left it another timer |
| `WaitTracker.TrackerService.Halt` | packages/cli/src/wait-tracker.ts:171-180 | Disarms the timers of all entries and keeps the entries, in any order of the entries; nothing happens before tracking has started |
| `WaitTracker.ApplyKeepsValid` | packages/cli/src/wait-tracker.ts:47-180 | Every operation keeps entries and armed timers in step: an armed handle belongs to its own execution, and no two entries share one |
| `WaitTracker.PollTracks` | packages/cli/src/wait-tracker.ts:75-86 | A poll changes no entry or timer that exists and gives every other execution it is told of an entry with a newly armed timer |
| `WaitTracker.PollArmsOne` | packages/cli/src/wait-tracker.ts:75-86 | Every timer that a poll arms belongs to an execution that it was told of and that had no entry, and is the timer of its new entry |
| `WaitTracker.PollArmsExactly` | packages/cli/src/wait-tracker.ts:77-86 | After a poll, an execution it returned has its timer armed if and only if it had no stale entry |
| `WaitTracker.StartsAndStops` | packages/cli/src/wait-tracker.ts:89-99 | Starting an execution drops its entry but leaves its timer, stopping it drops both, a firing timer goes with the entry of its execution; no other entry or timer changes |
| `WaitTracker.HaltDisarmsEntries` | packages/cli/src/wait-tracker.ts:171-178 | Step-down disarms exactly the timers that belong to an entry, not those left over by an early start, and keeps all entries |
| `WaitTracker.StartedEarlyGetsSecondTimer` | packages/cli/src/wait-tracker.ts:75-99 | An execution that is started while its timer is armed has two timers armed after the next poll that returns it |
| `WaitTracker.StaleOnlyByStepDown` | packages/cli/src/wait-tracker.ts:174-177 | Entries become stale exactly by a step-down with entries present |
| `WaitTracker.StaleStaysStale` | packages/cli/src/wait-tracker.ts:77-77 | However often an instance polls after leading again, an execution with a stale entry stays without a timer throughout, if and only if nothing starts or stops it |
| `WaitTracker.ForgottenAfterStepDown` | packages/cli/src/wait-tracker.ts:77-77 | Poll, step down, poll: the concrete run after which no timer is armed for an execution that the database still lists |
| `ActivationQueue.ActivationManager.AddQueuedWorkflowActivation` | packages/cli/src/active-workflow-manager.ts:949-959 | Queueing replaces any queued retry of the workflow by one after a second; the entries and pending retries of all other workflows stay, and the invariant holds: every pending timer is the handle of the entry of the workflow it retries |
| `ActivationQueue.ActivationManager.RemoveQueuedWorkflowActivation` | packages/cli/src/active-workflow-manager.ts:964-969 | Entry and timer go together and no retry of the workflow stays pending, while the entries and pending retries of all other workflows stay |
| `ActivationQueue.ActivationManager.RemoveAllQueuedWorkflowActivations` | packages/cli/src/active-workflow-manager.ts:974-978 | The loop empties the queue and leaves no retry pending, as on step-down |
| `ActivationQueue.ActivationManager.RescheduleActivation` | packages/cli/src/active-workflow-manager.ts:921-941 | Exactly one new timer is armed, with the entry's new delay; the invariant is kept if and only if the entry's old timer was not pending |
| `ActivationQueue.ActivationManager.BeginRetry` | packages/cli/src/active-workflow-manager.ts:914-920 | The timer that fires is pending no more but stays the handle of its entry while the retry is under way |
| `ActivationQueue.ActivationManager.FinishActivation` | packages/cli/src/active-workflow-manager.ts:755-756 | A retry that has activated its workflow takes it off the queue and goes on to save |
| `ActivationQueue.ActivationManager.FailRetry` | packages/cli/src/active-workflow-manager.ts:921-942 | Whatever happened to the queue since the retry began: it reads an entry that is gone exactly if the workflow is not queued any more, and leaves the queue in order exactly if the workflow is queued and was not queued anew |
| `ActivationQueue.RescheduleArmsOnce` | packages/cli/src/active-workflow-manager.ts:923-940 | The delay is doubled up to a day, or kept after an isolate error, and exactly one timer with it is armed |
| `ActivationQueue.StepKeepsGoodExactly` | packages/cli/src/active-workflow-manager.ts:907-978 | With attempts under way, a step keeps the queue in order and reads no missing entry, if and only if it is not the failure of an attempt whose entry was removed or queued anew |
| `ActivationQueue.RetriesHandledExactly` | packages/cli/src/active-workflow-manager.ts:907-978 | Over every run of queue operations and interleaved attempts: the queue is always in order and no entry is ever found missing, if and only if no failing attempt was overtaken by such a change |
| `ActivationQueue.UndisturbedRetriesAreHandled` | packages/cli/src/active-workflow-manager.ts:907-978 | In particular in every run in which nothing touches the entry of a workflow while its retry is under way and saving does not fail |
| `ActivationQueue.FailedSaveCrashes` | packages/cli/src/active-workflow-manager.ts:755-760 | A concrete run: the retry activates its workflow, fails to save, and reads the entry that is gone |
| `ActivationQueue.OneRetryPerWorkflow` | packages/cli/src/active-workflow-manager.ts:949-959 | No workflow has two retries pending |
| `ActivationQueue.OthersKeepTheirRetries` | packages/cli/src/active-workflow-manager.ts:949-969 | Taking a workflow off the queue, or queueing it anew, changes no entry and no pending retry of any other |
| `ActivationQueue.QueuedIsRetried` | packages/cli/src/active-workflow-manager.ts:949-959 | A workflow that is queued, whether or not it was before, has exactly one retry pending, after 1000 ms |
| `ActivationQueue.StepKeepsServedExactly` | packages/cli/src/active-workflow-manager.ts:907-978 | With attempts under way, a step keeps every queued workflow with a retry pending or under way, if and only if it is neither the failure of an attempt whose entry was changed nor the return of the only attempt of a workflow that stays queued |
| `ActivationQueue.QueuedAreServedExactly` | packages/cli/src/active-workflow-manager.ts:907-978 | Over every run: every queued workflow always has its retry pending or under way, if and only if no such failure and no such return occurs; `add` returns so for an archived workflow |
| `ActivationQueue.EnqueueKeepsValid` | packages/cli/src/active-workflow-manager.ts:949-959 | Queueing a workflow, queued or not, keeps the invariant |
| `ActivationQueue.RemoveAllCancelsEverything` | packages/cli/src/active-workflow-manager.ts:611-616 | Emptying the queue on step-down cancels every pending retry |
| `ActivationQueue.AtomicAttempt` | packages/cli/src/active-workflow-manager.ts:755-760 | A failed retry finds its entry unless the writes after the removal failed, leaves exactly one pending retry of its workflow with the next delay, and touches no entry and no retry of another workflow |
| `ActivationQueue.InterruptedAttempt` | packages/cli/src/active-workflow-manager.ts:914-942 | If the queue changed during the retry, its failure is handled properly if and only if the workflow is still queued and was not queued anew |
| `ActivationQueue.DelayIsBackoff` | packages/cli/src/active-workflow-manager.ts:921-940 | After any history of failures, m of them not isolate errors, the delay is min(1000 * 2^m, 86400000) ms and is what the armed timer has; it never shrinks, and isolate errors leave it as it is |
| `MultiMain.StepKeepsInv` | packages/cli/src/active-workflow-manager.ts:606-616 | Take-over, step-down and every other step keep at most one instance leading or stepping down, and every entry and every removal under way that of a call that has stored it |
| `MultiMain.ActedKeepsAccountedExactly` | packages/core/src/execution-engine/active-workflows.ts:70-218 | An action on one instance keeps every running trigger and every registered cron accounted for (by an entry that the step-down handler will find, a removal that will close it, or a call of the leader that is about to store an entry), if and only if it is none of the listed orphaning actions: starting or registering off the lead, overwriting or deleting an entry that is needed, failing after something was started, a throwing close, a step-down in the middle of an add |
| `MultiMain.StepKeepsAccountedExactly` | packages/core/src/execution-engine/active-workflows.ts:70-218 | The same for a step of the whole cluster |
| `MultiMain.AccountedThroughoutExactly` | packages/core/src/execution-engine/active-workflows.ts:70-218 | Over every run, with any mix of adds, removals, failing triggers and pollers, forwarded commands, take-overs and step-downs: everything in memory is accounted for throughout if and only if no step orphans anything |
| `MultiMain.HeldOnOneInstance` | packages/cli/src/active-workflow-manager.ts:1126-1131 | In every run without an orphaning step a workflow has triggers running or crons registered on at most one instance, and that one leads or is stepping down |
| `MultiMain.OrderlyRunsOrphanNothing` | packages/cli/src/active-workflow-manager.ts:606-616 | No step orphans anything if adds and removals of a workflow follow one another and nothing is added twice, the leader steps down between adds, no close throws, and no add fails once it has started something |
| `ActivationProgress.ForwardedAddRuns` | packages/cli/src/active-workflow-manager.ts:806-821 | From any reachable state with a leader and a forwarded add: the leader can take the command and start the triggers and store the entry, or store the entry and register the pollers, after which the workflow runs on it under that entry |
| `ActivationProgress.OwnAddRuns` | packages/cli/src/active-workflow-manager.ts:678-748 | The same for an add that the leader begins itself |
| `ActivationProgress.BegunOnLeaderSchedules` | packages/core/src/execution-engine/active-workflows.ts:81-135 | Registering crons before or after the entry is stored comes to the same |
| `ActivationProgress.AddOffTheLeadStartsNothing` | packages/cli/src/active-workflow-manager.ts:1129-1131 | An add begun on an instance that does not lead can never start a trigger, register a cron or store an entry, even if that instance leads later |
| `ActivationProgress.CallsCanFail` | packages/core/src/execution-engine/active-workflows.ts:112-135 | A call can fail at any point; if a poller fails and there were no triggers, exactly the entry goes, and crons stay |
| `ActivationProgress.OtherWorkflowsUntouched` | packages/core/src/execution-engine/active-workflows.ts:70-218 | No action changes entry, crons, calls or removals of a workflow that it is not about |
| `ActivationProgress.ForwardedRemovalBegins` | packages/cli/src/active-workflow-manager.ts:1026-1035 | The leader can take a forwarded removal, which then remembers the entry it found |
| `ActivationProgress.RemovalBegins` | packages/core/src/execution-engine/active-workflows.ts:188-196 | A removal deregisters the crons at once and leaves the entry for the time being |
| `ActivationProgress.RemovalLeavesNothing` | packages/core/src/execution-engine/active-workflows.ts:188-204 | A removal that nothing disturbs closes the triggers of the entry and leaves neither entry nor crons, nor touches any other call |
| `ActivationProgress.StepDownEmptiesMemory` | packages/cli/src/active-workflow-manager.ts:611-616 | From any state of a leader in which everything is accounted for and no add is half done, the step-down can be finished, after which nothing of any workflow is in memory |
| `LostTriggers.LateAddDuplicates` | packages/core/src/execution-engine/active-workflows.ts:83-106 | A concrete run: an add that began before the step-down starts its trigger after the handler has made its list, and the workflow runs on two instances |
| `LostTriggers.FailedCloseDuplicates` | packages/core/src/execution-engine/active-workflows.ts:206-241 | A concrete run: a trigger whose closing throws ends the handler, and the workflow runs on two instances |
| `LostTriggers.UpdateDuplicates` | packages/core/src/execution-engine/active-workflows.ts:188-204 | A concrete run: an update removes a workflow and adds it again; the removal, having waited for the old triggers to close, deletes the entry of the new ones, which the step-down then does not find |
| `LostTriggers.SecondAddDuplicates` | packages/core/src/execution-engine/active-workflows.ts:106-106 | A concrete run: a second add overwrites the entry of the first, whose triggers the step-down then does not close |
| `LostTriggers.LateCronDuplicates` | packages/core/src/execution-engine/active-workflows.ts:143-183 | A concrete run: an add that has stored its entry registers a cron after the step-down handler has deregistered those of the workflow |
| `LostTriggers.FailedPollerDuplicates` | packages/core/src/execution-engine/active-workflows.ts:112-135 | A concrete run: a poller that fails after another has registered its cron deletes the entry, and the cron stays |
| `Webhooks.WebhookTable.AddWebhooks` | packages/cli/src/active-workflow-manager.ts:155-239 | On update and activation every webhook before the one that ends the call succeeded; on start-up and on a change of leader it may also have failed with a query error, and no query error ends the call. A failure cleans up rows and external registrations as far as the clean-up gets; otherwise all that could be is stored and registered, even if saving static data then throws |
| `Webhooks.WebhookTable.ClearWebhooks` | packages/cli/src/active-workflow-manager.ts:245-300 | The webhooks are deregistered one by one and the rows deleted last: if anything throws, no row is lost and exactly the webhooks before that are deregistered; otherwise no row of the workflow remains and no other is touched |
| `Webhooks.SlashesAtTheEndsDoNotMatter` | packages/cli/src/active-workflow-manager.ts:179-184 | The four ways to write a path with one slash or none at either end share the row of the method and the bare path; a second slash is kept |
| `Webhooks.StoredRows` | packages/cli/src/webhooks/webhook.service.ts:126-136 | Exactly the upserted keys belong to the workflow afterwards; every other row is as it was |
| `Webhooks.LastWebhookOwnsRow` | packages/cli/src/webhooks/webhook.service.ts:126-136 | A row names the node of the last webhook that was stored under its method and path |
| `Webhooks.AddedMeansAllStored` | packages/cli/src/active-workflow-manager.ts:155-239 | Success other than on start-up or a change of leader means that every webhook of the workflow has its row, with its own node unless a later webhook has the same method and path |
| `Webhooks.FailureLeavesNothing` | packages/cli/src/active-workflow-manager.ts:208-228 | A failure that is cleaned up leaves no row of the workflow, and of the others exactly those that were not upserted |
| `Webhooks.OthersUnchangedExactly` | packages/cli/src/webhooks/webhook.service.ts:135-135 | Other workflows' rows survive, after success and after clean-up, if and only if no upserted method and path belonged to one of them |
| `Webhooks.PathIsTakenOver` | packages/cli/src/webhooks/webhook.service.ts:126-136 | A concrete case: storing a webhook on another workflow's path leaves that workflow without it, after success and after clean-up |
| `Webhooks.FailureDeregisters` | packages/cli/src/active-workflow-manager.ts:208-215 | After a failure and a complete clean-up the external services hold what they held before without the webhooks of the workflow's active version, and of those just registered exactly the ones that version lacks |
| `CredentialRepair.ReplaceInvalidCredentials` | packages/cli/src/workflow-helpers.ts:230-346 | The pass with both caches leaves every slot as its own lookup gives it or, if its id is unknown and an earlier slot with that type and id was found neither by id nor by name, as the first such slot; disabled nodes, absent and gateway-managed credentials are untouched |
| `CredentialRepair.RepairNode` | packages/cli/src/workflow-helpers.ts:249-342 | The same for the credentials of one node, with the caches carried on |
| `CredentialRepair.RepairSlot` | packages/cli/src/workflow-helpers.ts:250-341 | One credential: both caches stay right, and the result is the cached or the looked-up one |
| `CredentialRepair.RepairName` | packages/cli/src/workflow-helpers.ts:258-291 | One credential without an id: by name if unique; a name that leads nowhere leaves the credential alone the first time, and after that it becomes a reference without id |
| `CredentialRepair.RepairRef` | packages/cli/src/workflow-helpers.ts:293-341 | One credential with an id: by id, then by name if unique, then as it is |
| `CredentialRepair.CachesInvisibleExactly` | packages/cli/src/workflow-helpers.ts:237-341 | The cached lookup of every slot is its lookup by itself if and only if no slot follows one with the same type and id but another name that was found neither by id nor by name |
| `CredentialRepair.RepairedIndependentlyExactly` | packages/cli/src/workflow-helpers.ts:230-346 | What the pass leaves behind is what independent lookups give, under exactly that condition |
| `CredentialRepair.SecondNameIsReplaced` | packages/cli/src/workflow-helpers.ts:334-341 | Concretely: without records, the second of two credentials with one id and two names is given the name of the first |
| `CredentialRepair.FindByIdFinds` | packages/cli/src/workflow-helpers.ts:303-306 | The lookup by id and type finds such a record if there is one |
| `CredentialRepair.FindByNameFinds` | packages/cli/src/workflow-helpers.ts:266-270 | The lookup by name finds exactly the records with that name and type that the project may use |
| `CredentialRepair.DifferentNameShows` | packages/cli/src/workflow-helpers.ts:334-341 | Of a slot found neither by id nor by name and a later one with its id and another name, at least one comes out differently from its own lookup |
| `CredentialRepair.SecondRunChangesNothing` | packages/cli/src/workflow-helpers.ts:230-346 | Run on its own result the pass changes no id and no name, whether or not that condition holds |
| `CredentialRepair.RecordFoundAgain` | packages/cli/src/workflow-helpers.ts:272-332 | A credential that was resolved to a record is found again under its id, with the same name |
| `CredentialLookup.OnlyNamedExactly` | packages/cli/src/workflow-helpers.ts:266-285 | The lookup by name yields a record if and only if there is exactly one record in the database with that name and type that the project may use, and then that one |
| `CredentialLookup.SharedNameLeadsNowhere` | packages/cli/src/workflow-helpers.ts:272-291 | A name that two usable records share leads to neither: a bare name becomes a reference without id, and an unknown id stays as it is |
| `CredentialLookup.ResolveLeadsTo` | packages/cli/src/workflow-helpers.ts:250-341 | A known id gets the name of its record; an unknown or missing id gets id and name of the only record with its name, and is left as it reads if there is none or more than one |
| `CredentialLookup.EveryNodeIsRepaired` | packages/cli/src/workflow-helpers.ts:230-346 | If dead ends agree on names, the pass leaves every credential of every enabled node as its own lookup gives it, at its place, and every disabled node as it was |
| `Deadlines.StartSubExecution` | packages/cli/src/workflow-execute-additional-data.ts:392-403 | The lesser of the parent deadline, or the largest exact number without one, and start plus 1000 ms for each second of a positive timeout; without such a timeout the parent deadline, whatever it is |
| `Deadlines.NestedDeadlineIsLeast` | packages/cli/src/workflow-execute-additional-data.ts:392-403 | At any depth: with a timeout at some level the deadline is exactly the least of the parent's, or the largest exact number without one, and of start plus timeout of every level; without a timeout it is the parent's |
| `Deadlines.NoDeadlineNoSource` | packages/cli/src/workflow-execute-additional-data.ts:392-403 | There is no deadline if and only if neither the parent nor any level has one |
| `Deadlines.DeadlinesShrink` | packages/cli/src/workflow-execute-additional-data.ts:392-403 | At any depth the deadline is no later than the parent's, if it has one, and no later than start plus timeout of any level with a timeout |
| `Deadlines.DeadlineIsOfSomeLevel` | packages/cli/src/workflow-execute-additional-data.ts:392-403 | At any depth the deadline is the parent's, the largest exact number, or start plus 1000 ms for each second of the timeout of some level |
| `Deadlines.ArmTimeouts` | packages/cli/src/workflow-runner.ts:344-454 | No timeout is set exactly if the workflow's own timeout, or the default without one, or the maximum is not positive; otherwise the lesser of timeout and maximum counts, in seconds: from now for the deadline handed on and for a first stop, from the first start for the stop of a resume, but never in the past |
| `Deadlines.StopIsKeptAcrossResumes` | packages/cli/src/workflow-runner.ts:432-453 | Over any number of waits and resumes all stops are set against the first start: a resume before that deadline is stopped exactly at it, a later one at once, and none earlier than one before it |
| `Deadlines.RowKeepsFirstStart` | packages/@n8n/db/src/repositories/execution.repository.ts:374-391 | Setting the row running again keeps the start time of the first start, over any number of starts |
| `Deadlines.StopOnResume` | packages/cli/src/workflow-runner.ts:367-453 | On a resume the stop is where the first start put it, or at the resume if that is later; the deadline handed on moves instead, and exceeds the stop exactly if the resume came after the start and before that deadline |
| `NodeGroups.ValidateNodeGroups` | packages/cli/src/workflow-helpers.ts:134-166 | Accepts exactly if names are distinct, every mentioned node exists, and a node is mentioned again only after mentions in a group with an empty name; what a rejection says is so: the name occurs twice, the group mentions an unknown node, the node was mentioned in the first group and then in the second |
| `NodeGroups.CheckGroup` | packages/cli/src/workflow-helpers.ts:149-164 | The inner loop, for one group |
| `NodeGroups.OneMoreMention` | packages/cli/src/workflow-helpers.ts:151-163 | The test of one mention is right, although the map only remembers the last group of a node and treats an empty name as none |
| `NodeGroups.AcceptableExactly` | packages/cli/src/workflow-helpers.ts:134-166 | Acceptance spelled out over all positions in all groups: names differ, ids are non-empty and exist, and of two positions with one id the earlier is in a group with an empty name |
| `NodeGroups.NamedGroupsShareNothing` | packages/cli/src/workflow-helpers.ts:126-166 | With non-empty names acceptance means that no node id occurs twice within or across groups |
| `NodeGroups.NamelessGroupSharesNode` | packages/cli/src/workflow-helpers.ts:157-163 | A concrete case: a node of the group with the empty name is accepted in another group as well |
| `ConcurrencyQueue.Queue.EnqueueExecution` | packages/cli/src/concurrency/concurrency-queue.ts:22-33 | Throttles exactly if as many run as the limit allows; a throttled execution goes to the end of the queue, any other is let through past an empty queue; capacity is conserved |
| `ConcurrencyQueue.Queue.ReleaseNext` | packages/cli/src/concurrency/concurrency-queue.ts:65-75 | Moves exactly the head of the queue to those let through, so that capacity, running and waiting add up as before; an empty queue is left as it is |
| `ConcurrencyQueue.Queue.DequeueExecution` | packages/cli/src/concurrency/concurrency-queue.ts:39-43 | Capacity is conserved and no room left idle: the number running drops by one only if nobody waits, and never rises above the limit |
| `ConcurrencyQueue.Queue.RemoveExecution` | packages/cli/src/concurrency/concurrency-queue.ts:45-55 | Takes the first entry with the id out and lets the head of the rest through, leaving the others in order; nothing happens for an unknown id |
| `ConcurrencyQueue.StepConserves` | packages/cli/src/concurrency/concurrency-queue.ts:22-75 | Capacity is always the limit less those let through and those waiting; nobody waits while there is room; a release lets exactly the head through |
| `ConcurrencyQueue.RemovalLetsHeadThrough` | packages/cli/src/concurrency/concurrency-queue.ts:45-55 | Which executions a removal leaves, index by index: the first with the id is gone, the first of the rest has been let through |
| `ConcurrencyQueue.ReleasesServeInOrder` | packages/cli/src/concurrency/concurrency-queue.ts:39-43 | First come, first served: any number of releases lets exactly that many through from the front of the queue, and as many run as before |
| `ConcurrencyQueue.LimitKeptExactly` | packages/cli/src/concurrency/concurrency-queue.ts:45-55 | An operation keeps the limit if and only if it does not remove one of several waiting executions: such a removal lets another one through beyond the limit |
| `ConcurrencyQueue.RemovalExceedsLimit` | packages/cli/src/concurrency/concurrency-queue.ts:45-55 | A concrete run: with room for one, removing one of two that wait leaves two running |
| `ConcurrencyQueue.ExcessIsBounded` | packages/cli/src/concurrency/concurrency-queue.ts:22-75 | Over any run the limit is exceeded by at most the number of such removals |
| `ConcurrencyQueue.RunsStayWithinLimit` | packages/cli/src/concurrency/concurrency-queue.ts:22-75 | From an empty queue, the limit holds throughout a run if and only if no removal overtakes |

## Left out

- CredentialsOverwrites: fields whose values are objects, which the code compares by reference; the broadcast and the front-end refresh; encryption and JSON are identities.
- CredentialTypes: the known types and the loaded types are read from one registry.
- CredentialsOverwrites.MeaningKeptExactly: assumes that every extended type is itself known and that no type extends another twice.
- ActiveExecutions: response promises, response modes, streaming responses, cancelling the underlying run, and the hooks and events sent on the way.
- ActiveExecutions.Registry.Shutdown: covers regular mode; it does not model queue mode or the removal of throttled executions from the concurrency queue.
- ActiveExecutions.Registry.PollUntilEmpty: does not model the sleep; the executions that finish meanwhile are a parameter, and due clean-ups run before each look at the registry.
- ExecutionCluster.ReachableIsSafe: holds under the environment assumptions above, which are guards of the steps.
- ExecutionCluster: crashes of a process, queue-mode workers, deletion of rows, and the evaluation mode's own concurrency queue.
- ParentResume: finding the data of the last executed node, and the flag that tells whether a child restarts its parent.
- ParentResume.OwnStackThroughoutExactly: is about parents whose waits have stacks that differ beyond the head's data; where they do not, an old stack differs from the right one in no more than that, and `OwnOutputThroughoutExactly` says when it does.
- WaitTracker: when timers fire; loading the execution before it is started, and its error paths.
- ActivationQueue: what activating a workflow does in between, except for how it ends; the activation mode and workflow data stored with an entry.
- ActivationQueue.AtomicAttempt: takes a retry as one step; `RetriesHandledExactly` covers every interleaving.
- MultiMain: the triggers of one call are taken together, as are the crons of one workflow; triggers that start without a way to close them; leases that end unnoticed; delivery order and loss of published commands; single-main mode.
- Webhooks: the webhook cache, dynamic paths, and set-up at an external service that takes effect although it throws.
- CredentialRepair: a credential object whose id is undefined, types named like members of the object prototype, and sharing of one cached object between nodes.
- Deadlines: real clocks and timers; the instants are parameters.
- ConcurrencyQueue: events, and re-enabling after shutdown.
- Wiring of servers, node loading, expression evaluation, licences, deduplication and variables: their logic lies in libraries outside these files or is a plain filter or lookup.

# The NVDA HTTP bridge, modelled and proved

The NVDA HTTP bridge is an NVDA add-on that answers local HTTP requests about what the
screen reader sees. This project models its concurrent and resource-bounded parts and
proves what they promise. `dafny verify dfyconfig.toml` checks all of it.

The files, by part of the add-on:

- **Object trees.** `TreeGraph` is a static graph of accessibility objects whose links may
  fail, form cycles or go on forever. `TreeWalk` is the explicit-stack walker as a machine,
  `TreeReference` the recursive traversal it is meant to perform, and `TreeRefinement` shows
  they agree. `TreeBounds` holds the step and stack bounds, `TreeCompleteness`,
  `TreePlacement`, `TreeExactness` and `TreeLimits` what an answer says about the graph,
  `TreeOutline`, `TreeNesting` and `TreeNested` the nested form, and `TreeWalker` the walker as an object with its two
  synchronous drivers.
- **Object registry.** `Registry` is the table with its reverse index as values, next to a
  naive registry that has no index; `RegistryObject` is the object that refines it.
- **Main-thread executor.** `Executor` is the protocol between callers, wrappers and close,
  one critical section a step, under a scheduler that may delay, reorder, drop, repeat or
  overlap wrappers. `ExecutorRuns`, `ExecutorOutcomes` and `ExecutorShutdown` say what whole
  runs promise, `ExecutorObject` has the tasks and the queue as objects.
- **Tree exports.** `Exports` is the job machine: workers, cancel, the security transition,
  create and cleanup passes, interleaved. `ExportInvariant` is what every step keeps,
  `ExportRuns` what follows, `ExportObject` the jobs and the manager as objects,
  `ExportWorker` the worker's whole thread with its walker, and `ExportPromises` when an
  export is admitted, completes and can be fetched.
- **Events.** `Events` and `EventsObject` are the bounded buffer, `Sse` and `SseOrder` the
  delivery loop against concurrent changes of the buffer, `SseLoss` and `SseRotation` the
  exact conditions under which it loses an event silently, `SseObject` the loop as the
  request handler runs it, `SseContents` what it writes, `Wire` the printer and the client's parser, `Resume` ids, the
  Last-Event-ID header and reconnecting, and `Delivery` the whole way.
- **Security and rates.** `Security` and `SecurityObject` are the transition to a restricted
  session over all stores, `SecurityRuns` what it does for each flag, `RateLimiter` the sliding window.

Interleavings are modelled as machines: an event is one critical section, one main-thread
call or one write, and a run is any series of enabled events. Where the source changes
objects in place, a class does so too, and each method's contract equates the new state with
the machine's or the specification's function of the old one.

Behaviour that may surprise a reader of the code:

- Truncation is also reported, although nothing is missing, exactly when an object is reached
  by two paths; the node limit is tested before the cycle, so it can be the reason given.
- A wrapper that the scheduler runs twice removes the registration of a running task.
- A task that is pending when `close` begins can still start, if its wrapper has already read
  the closing flag under the task's lock.
- A stream's cursor of 0 never reports a gap. A stream that waits through a restriction and
  its end keeps its cursor in the new instance; the new instance's first events are left out
  without a reset exactly when an item is the first thing it writes and a matching event has
  an id up to that cursor.
- The client's parser returns a message unchanged only if its event name has no line feed and
  does not end in a carriage return.

## Model

| member | source | states |
|---|---|---|
| `TreeRefinement.WalkerRefinesRecursion` | nvda-addon/globalPlugins/_nvdaHttpBridge/tree.py:168-240 | On any graph of objects, cyclic or endless ones included, a walker with a node cap that is done has emitted the records of the recursive preorder traversal that threads one seen-set and one node budget, in its order, with its truncation reasons in order. |
| `TreeRefinement.WalkerPerformsTraversal` | nvda-addon/globalPlugins/_nvdaHttpBridge/tree.py:168-240 | The walker needs at most N * (2 * width + 1) + 2 steps to finish exactly that traversal. |
| `TreeRefinement.CutWalkIsPrefix` | nvda-addon/globalPlugins/_nvdaHttpBridge/tree.py:242-257 | Wherever a walk is cut, its records are a prefix of the whole traversal. |
| `TreeRefinement.UncappedWalkRefinesRecursion` | nvda-addon/globalPlugins/_nvdaHttpBridge/tree.py:174-178 | A walk without a node cap that ends is the traversal under any cap it does not reach. |
| `TreeWalk.RunCompose` | nvda-addon/globalPlugins/_nvdaHttpBridge/tree.py:242-252 | Cutting a walk into slices of any sizes changes nothing: j steps and then k steps are j + k steps. |
| `TreeBounds.WalkFinishesWithin` | nvda-addon/globalPlugins/_nvdaHttpBridge/tree.py:168-240 | With a node cap N, and the child cap or N + 1 as the width, every graph reaches done within N * (2 * width + 1) + 2 steps. |
| `TreeBounds.FrontierIsOneFramePerLevel` | nvda-addon/globalPlugins/_nvdaHttpBridge/tree.py:259-260 | The stack holds exactly one frame for each depth 0, 1, 2, ... and at most depth limit + 1 of them. |
| `TreeBounds.RunKeepsSound` | nvda-addon/globalPlugins/_nvdaHttpBridge/tree.py:168-240 | Any run keeps: distinct identities in the records, node count equal to the number of records, each reason once, sound frames. |
| `TreeCompleteness.UntruncatedIsComplete` | nvda-addon/globalPlugins/_nvdaHttpBridge/tree.py:168-240 | No truncation reason and no failed link imply that every object reachable by first-child and next-sibling links is listed exactly once. |
| `TreeCompleteness.TraversalIsSound` | nvda-addon/globalPlugins/_nvdaHttpBridge/tree.py:174-184 | No identity is listed twice and no more than the node cap are listed. |
| `TreePlacement.TraversalRecordsArePlaced` | nvda-addon/globalPlugins/_nvdaHttpBridge/tree.py:187-214 | The object of every record is the one that a path of child positions within the depth and child limits, with the record's depth and index, leads to; the record says exactly which of its links could not be read. |
| `TreeExactness.TruncationIsExact` | nvda-addon/globalPlugins/_nvdaHttpBridge/tree.py:168-240 | On any graph, with cycles, shared objects and links that fail: no truncation is reported if and only if everything that the readable links lead to is listed and no two of their paths lead to the same identity. |
| `TreeExactness.OverreportedIffShared` | nvda-addon/globalPlugins/_nvdaHttpBridge/tree.py:174-195 | When nothing is missing, truncation is reported all the same if and only if two paths lead to one identity: the exact inputs on which a reason is an over-report. |
| `TreeExactness.CleanSeesOnce` | nvda-addon/globalPlugins/_nvdaHttpBridge/tree.py:180-195 | With no failing link, a traversal without a reason meets the identity of each remaining path, new at that moment and by that path alone. |
| `TreeLimits.ListedIffWithin` | nvda-addon/globalPlugins/_nvdaHttpBridge/tree.py:168-240 | Where no two paths lead to one identity, and the node limit is not reported: an object is listed if and only if its path is no longer than the depth limit and every position on it is below the child limit. |
| `TreeLimits.NodeLimitIsExact` | nvda-addon/globalPlugins/_nvdaHttpBridge/tree.py:174-178 | Where no two paths within the limits lead to one identity: the node limit is reported if and only if some object within the depth and child limits is not listed, and then exactly max_nodes are listed. |
| `TreeLimits.ReasonsAreExact` | nvda-addon/globalPlugins/_nvdaHttpBridge/tree.py:199-222 | There no cycle is reported; the child limit is reported only if a place within the limits has a child at position max_children, the depth limit only if an object at the depth limit has a first child, and both are if so and the nodes do not run out. |
| `TreeLimits.NothingBeyondLimits` | nvda-addon/globalPlugins/_nvdaHttpBridge/tree.py:168-240 | On any graph, with cycles, shared objects and links that fail: whatever is listed stands at a place within the limits. |
| `TreeOutline.CutWalkIsOutline` | nvda-addon/globalPlugins/_nvdaHttpBridge/tree.py:206-239 | However a walk is cut, the parent of each of its records lies on the rightmost path of the records before it, one level up; record ids are distinct. |
| `TreeNesting.NestThenFlatten` | nvda-addon/globalPlugins/_nvdaHttpBridge/tree.py:263-277 | Nesting a non-empty prefix of a walk and flattening it in preorder gives back exactly the prefix. |
| `TreeNesting.SiblingIndexesIncrease` | nvda-addon/globalPlugins/_nvdaHttpBridge/tree.py:235-239 | Sibling indexes strictly increase along every list of children. |
| `TreeNested.Nested` | nvda-addon/globalPlugins/_nvdaHttpBridge/tree.py:263-277 | The nodes built in place, each appended to its parent's children, form exactly the tree of the records, with a single root; no records give an empty list of roots. |
| `TreeWalker.TreeWalker.Step` | nvda-addon/globalPlugins/_nvdaHttpBridge/tree.py:168-240 | One step on the walker's fields is one step of the walk, and returns the record it emits, if any. |
| `TreeWalker.TreeWalker.NextBatch` | nvda-addon/globalPlugins/_nvdaHttpBridge/tree.py:242-252 | A batch continues the walk, returns exactly what it emitted, at most max_records of it, and is short only if the walk is done or the budget is spent. |
| `TreeWalker.TreeWalker.Abort` | nvda-addon/globalPlugins/_nvdaHttpBridge/tree.py:254-257 | Abort adds its reason once, empties the stack and is done. |
| `TreeWalker.SilentStepUsesIdleWork` | nvda-addon/globalPlugins/_nvdaHttpBridge/tree.py:246-251 | A walk cannot go on forever without emitting a record or finishing, so a batch ends on every graph, also without a node cap. |
| `TreeWalker.WholeWalkIsFaithful` | nvda-addon/globalPlugins/_nvdaHttpBridge/tree.py:280-299 | A finished walk's answer is the whole traversal; with no reason and no failed link it lists everything reachable. |
| `TreeWalker.CutWalkIsFaithful` | nvda-addon/globalPlugins/_nvdaHttpBridge/tree.py:280-299 | An answer cut short by time or size is a duplicate-free prefix of the traversal within the node cap. |
| `TreeWalker.CollectTree` | nvda-addon/globalPlugins/_nvdaHttpBridge/tree.py:302-319 | The one-thread driver ends under any nondecreasing clock and answers faithfully: a prefix within the node cap, everything unless the time limit is reported, complete if no reason and no failed link; the time limit is reported only if a reading of the clock left less than a millisecond of the timeout. |
| `TreeWalker.AddWhileSmall` | nvda-addon/globalPlugins/_nvdaHttpBridge/service.py:506-514 | Keeps records while their summed encoded size stays within the byte cap, and is full exactly when the next one would not fit. |
| `TreeWalker.TreeSliced` | nvda-addon/globalPlugins/_nvdaHttpBridge/service.py:475-515 | The sliced driver ends under any nondecreasing clock; a call that fails is one the main thread did not answer, and otherwise the answer is faithful and within the byte cap; the time limit is reported only if time ran out, the size limit only if the traversal's next record would not fit. |
| `Registry.EvictFrontIsTrim` | nvda-addon/globalPlugins/_nvdaHttpBridge/serialization.py:104-113 | On entries in the order of their expiry, popping from the front equals dropping everything expired and keeping the newest `capacity`. |
| `Registry.ApplyKeepsValid` | nvda-addon/globalPlugins/_nvdaHttpBridge/serialization.py:83-151 | Every operation keeps the order by expiry, distinct ids, the capacity, and the one-to-one correspondence of the entries with the index on (generation, identity). |
| `Registry.AddIsLiveIndexed` | nvda-addon/globalPlugins/_nvdaHttpBridge/serialization.py:90-101 | In the middle of a registration, when a stale entry has lost its index key, all live entries are still indexed and every key names an entry. |
| `Registry.ApplyIsNaive` | nvda-addon/globalPlugins/_nvdaHttpBridge/serialization.py:83-151 | Each operation leaves the entries and gives the answer that the naive registry does, which has no index and looks at every entry. |
| `Registry.RunsLikeNaive` | nvda-addon/globalPlugins/_nvdaHttpBridge/serialization.py:70-151 | Over any series of calls under a nondecreasing clock no caller can tell the two registries apart. |
| `Registry.EmptyRunsLikeNaive` | nvda-addon/globalPlugins/_nvdaHttpBridge/serialization.py:70-151 | In particular from the empty registry on, whatever is called. |
| `Registry.LiveObjectKeepsId` | nvda-addon/globalPlugins/_nvdaHttpBridge/serialization.py:90-97 | Registering an object whose entry is live returns its id again. |
| `Registry.ResolvedIffNamed` | nvda-addon/globalPlugins/_nvdaHttpBridge/serialization.py:128-141 | Resolving an id finds an object if and only if a live entry of the expected generation names it and it is not gone. |
| `Registry.ResolvingRenews` | nvda-addon/globalPlugins/_nvdaHttpBridge/serialization.py:128-141 | An object that is found has its lifetime begun again; an id that is not found names nothing from then on. |
| `Registry.RegisteredSurvivesIffRoom` | nvda-addon/globalPlugins/_nvdaHttpBridge/serialization.py:98-102 | A registration leaves its own id resolvable if and only if the TTL is positive and the capacity at least 1. |
| `Registry.AnswersAgreeWithGiven` | nvda-addon/globalPlugins/_nvdaHttpBridge/serialization.py:90-141 | An id always stands for the generation and identity it was first given for: registering and resolving never return it for another object. |
| `RegistryObject.ObjectRegistry.Register` | nvda-addon/globalPlugins/_nvdaHttpBridge/serialization.py:83-102 | The method on the ordered table and the index does what the specification says. |
| `RegistryObject.ObjectRegistry.Evict` | nvda-addon/globalPlugins/_nvdaHttpBridge/serialization.py:104-113 | The eviction loop does what front eviction says. |
| `RegistryObject.ObjectRegistry.RemoveEntry` | nvda-addon/globalPlugins/_nvdaHttpBridge/serialization.py:115-126 | Removal deletes the index key only if it still means this entry. |
| `RegistryObject.ObjectRegistry.Resolve` | nvda-addon/globalPlugins/_nvdaHttpBridge/serialization.py:128-141 | Resolving finds, refreshes or removes exactly as specified, for expired, foreign-generation and defunct entries too. |
| `RegistryObject.ObjectRegistry.Size` | nvda-addon/globalPlugins/_nvdaHttpBridge/serialization.py:148-151 | Counts what eviction leaves. |
| `RegistryObject.ObjectRegistry.Clear` | nvda-addon/globalPlugins/_nvdaHttpBridge/serialization.py:143-146 | Empties table and index. |
| `Executor.StepKeepsInvariant` | nvda-addon/globalPlugins/_nvdaHttpBridge/executor.py:57-139 | Every step of every caller, wrapper run and close keeps the invariant that ties task states, locks, callers, wrappers, registrations and the closer together. |
| `ExecutorRuns.StepCountsStarts` | nvda-addon/globalPlugins/_nvdaHttpBridge/executor.py:92-110 | A function is started only by a wrapper's decision under the task's lock, and only before the deadline. |
| `ExecutorRuns.StartedAtMostOnce` | nvda-addon/globalPlugins/_nvdaHttpBridge/executor.py:92-110 | In every run, with wrappers delayed, reordered, dropped, repeated or concurrent, a task's function starts at most once. |
| `ExecutorRuns.ReportedNotRunNeverRuns` | nvda-addon/globalPlugins/_nvdaHttpBridge/executor.py:75-86 | A task reported with completionUnknown false has not been started before the report and is not started afterwards. |
| `ExecutorRuns.NormalReturnIsTheOneResult` | nvda-addon/globalPlugins/_nvdaHttpBridge/executor.py:88-90 | A call that returns normally returns the value of the one start of its function. |
| `ExecutorRuns.QueueIsBounded` | nvda-addon/globalPlugins/_nvdaHttpBridge/executor.py:60-66 | At most max_pending tasks are registered, and a scheduled task that is still pending is among them. |
| `ExecutorRuns.RunningIsCountedUnlessDisowned` | nvda-addon/globalPlugins/_nvdaHttpBridge/executor.py:121-130 | A running task is registered if and only if no second run of its wrapper has left. |
| `ExecutorOutcomes.CallerIsToldWhoCanceled` | nvda-addon/globalPlugins/_nvdaHttpBridge/executor.py:88-89 | In every run, a caller whose wait ends is told that the bridge is shutting down if and only if close canceled its task, and that the task expired before its start if and only if its wrapper's decision did. |
| `ExecutorOutcomes.TimeoutTellsTheTruth` | nvda-addon/globalPlugins/_nvdaHttpBridge/executor.py:75-86 | In every run, a caller that timed out is told completionUnknown unless it has itself withdrawn the pending task. |
| `ExecutorOutcomes.FunctionErrorIsTheOneRaised` | nvda-addon/globalPlugins/_nvdaHttpBridge/executor.py:111-116 | When a call raises an error of its function, the function was started exactly once and raised exactly this error. |
| `ExecutorOutcomes.CapacityIsExact` | nvda-addon/globalPlugins/_nvdaHttpBridge/executor.py:60-90 | In every reachable state a task takes up capacity if and only if it was admitted, its caller has not been told that it could not be scheduled or is withdrawn, and no run of its wrapper has left. |
| `ExecutorShutdown.RunningTaskCanBeUnregistered` | nvda-addon/globalPlugins/_nvdaHttpBridge/executor.py:94-96 | In any state in which a function is running, a second run of its wrapper removes the registration while the function goes on. |
| `ExecutorShutdown.AfterCloseNothingStarts` | nvda-addon/globalPlugins/_nvdaHttpBridge/executor.py:132-139 | Once close has returned no function starts and no task is admitted. |
| `ExecutorShutdown.CloseCancelsUnlessAboutToStart` | nvda-addon/globalPlugins/_nvdaHttpBridge/executor.py:98-107 | A task pending when close begins is canceled when close returns if and only if its wrapper had not, in time and under the task's lock, already read the closing flag; otherwise it runs once. |
| `ExecutorShutdown.FunctionCanStartDuringClose` | nvda-addon/globalPlugins/_nvdaHttpBridge/executor.py:98-108 | In any state in which a wrapper has read the open flag in time, close may begin and the function then starts while close is under way. |
| `ExecutorShutdown.AboutToStartIsReached` | nvda-addon/globalPlugins/_nvdaHttpBridge/executor.py:98-108 | A run of one task leads to such a state. |
| `ExecutorObject.TaskCell.CancelPending` | nvda-addon/globalPlugins/_nvdaHttpBridge/executor.py:24-32 | The critical section on the task's fields: a pending task, and no other, becomes canceled and done with the given reason as its error, and the answer says so. |
| `ExecutorObject.TaskCell.Decide` | nvda-addon/globalPlugins/_nvdaHttpBridge/executor.py:94-109 | The wrapper's first critical section: leaves a task that is not pending, expires one that is late or closing, starts any other. |
| `ExecutorObject.TaskCell.RunAlone` | nvda-addon/globalPlugins/_nvdaHttpBridge/executor.py:92-120 | With nobody else at work a pending task ends finished with its function's value or error, or canceled; any other is left alone. |
| `ExecutorObject.TaskCell.Collect` | nvda-addon/globalPlugins/_nvdaHttpBridge/executor.py:88-90 | A done task's error is raised before its result is returned. |
| `ExecutorObject.MainThreadExecutor.GiveUp` | nvda-addon/globalPlugins/_nvdaHttpBridge/executor.py:75-86 | A caller whose wait times out withdraws and unregisters a task that is still pending, and reports completionUnknown exactly if it could not. |
| `ExecutorObject.MainThreadExecutor.Admit` | nvda-addon/globalPlugins/_nvdaHttpBridge/executor.py:57-66 | Refuses when closing, then when full, and otherwise registers a new pending task under a new id. |
| `ExecutorObject.MainThreadExecutor.Unregister` | nvda-addon/globalPlugins/_nvdaHttpBridge/executor.py:129-130 | Removes one registration and nothing else. |
| `ExecutorObject.MainThreadExecutor.Close` | nvda-addon/globalPlugins/_nvdaHttpBridge/executor.py:132-139 | The first call leaves every registered pending task canceled and done with the shutdown error; a later call changes nothing. |
| `ExportInvariant.StepKeepsInvariant` | nvda-addon/globalPlugins/_nvdaHttpBridge/exports.py:133-384 | Every step of the workers, cancel, the security transition, create and the cleanup passes keeps the invariant on jobs, files, quotas and revocation. |
| `ExportRuns.QuotasAlwaysHold` | nvda-addon/globalPlugins/_nvdaHttpBridge/exports.py:138-167 | In every reachable state at most one job is active, completed and active jobs are at most 8, each completed file is within 100 MiB and their sum within 200 MiB. |
| `ExportRuns.PublishedFileIsTheTraversal` | nvda-addon/globalPlugins/_nvdaHttpBridge/exports.py:214-268 | A completed job's file is the concatenated lines of the whole bounded traversal of its root; node count, byte count and truncation reasons are those of the traversal. |
| `ExportRuns.ExportWalkIsBounded` | nvda-addon/globalPlugins/_nvdaHttpBridge/exports.py:169-180 | Whatever options a request gives, an export's walk ends within a fixed number of steps and holds at most 101 frames. |
| `ExportRuns.CompletedWasCleared` | nvda-addon/globalPlugins/_nvdaHttpBridge/exports.py:250-257 | Every run that leaves a job completed contains its passing security check on the main thread, unrestricted, with no batch of the job after it. |
| `ExportRuns.CancelIsFinal` | nvda-addon/globalPlugins/_nvdaHttpBridge/exports.py:328-365 | Once cancel, cancel_sensitive or expiry has reached a job, no later state makes it downloadable, wherever its worker was. |
| `ExportRuns.RestrictedMeansNothingDownloadable` | nvda-addon/globalPlugins/_nvdaHttpBridge/exports.py:352-365 | From the end of a transition to restricted until the session is freed, in the middle of further restricting transitions too, nothing is downloadable, also no job created after a transition listed the jobs. |
| `ExportRuns.NoFileIsForgotten` | nvda-addon/globalPlugins/_nvdaHttpBridge/exports.py:453-463 | With deletions that may fail, any file on disk belongs to a job that is still in the table. |
| `ExportRuns.CleanupPassRemoves` | nvda-addon/globalPlugins/_nvdaHttpBridge/exports.py:367-384 | A cleanup pass over an expired job whose deletions succeed leaves no file and takes the job out of the table. |
| `ExportPromises.RefusalIsExact` | nvda-addon/globalPlugins/_nvdaHttpBridge/exports.py:141-148 | In every reachable state a new export is refused as running if and only if a job in the table is queued or running; else as retained if and only if 8 are completed; else for storage if and only if their files have 200 MiB; and otherwise it is admitted. |
| `ExportPromises.UnhinderedExportCompletes` | nvda-addon/globalPlugins/_nvdaHttpBridge/exports.py:182-290 | An undisturbed worker whose calls are answered and allowed, whose file opens, is renamed and is within 100 MiB and within 200 MiB with the retained ones, and which is at the head of its loop always less than 300 seconds after its first step, completes. |
| `ExportPromises.LateExportFails` | nvda-addon/globalPlugins/_nvdaHttpBridge/exports.py:217-218 | One that looks at the clock 300 seconds or more after its first step, with its walk not done, does not. |
| `ExportPromises.StoppedWorkerIsCanceled` | nvda-addon/globalPlugins/_nvdaHttpBridge/exports.py:185-190 | A cancel that finds a worker at its start, at the head of its loop or before publication ends the job as canceled. |
| `ExportPromises.CanceledWasAskedFor` | nvda-addon/globalPlugins/_nvdaHttpBridge/exports.py:269-272 | In every reachable state a job is reported as canceled only if its cancel flag is set. |
| `ExportPromises.UnpublishedLeavesNothing` | nvda-addon/globalPlugins/_nvdaHttpBridge/exports.py:286-290 | The last step of a worker whose job is not published, and a cancel of a published one, leave no file if the deletions are granted. |
| `ExportPromises.PublishedIsDownloadable` | nvda-addon/globalPlugins/_nvdaHttpBridge/exports.py:328-340 | A published export is downloadable in every state and at every time in the next 600 seconds, whatever other jobs and cleanup passes do, unless it is canceled or revoked. |
| `ExportPromises.RevokedIsDue` | nvda-addon/globalPlugins/_nvdaHttpBridge/exports.py:352-365 | A completed job that a security transition revokes is due for every cleanup pass from then on. |
| `ExportPromises.CleanedIsThePass` | nvda-addon/globalPlugins/_nvdaHttpBridge/exports.py:367-384 | What the manager's pass makes of an overdue job is the run of one cleaner's steps on it, for every outcome of the two deletions. |
| `ExportObject.ExportManager.Create` | nvda-addon/globalPlugins/_nvdaHttpBridge/exports.py:133-167 | On a started manager: a cleanup pass over the expired jobs, then the security check, then the critical section on what the pass left; a refusal adds nothing. |
| `ExportObject.ExportManager.Admit` | nvda-addon/globalPlugins/_nvdaHttpBridge/exports.py:137-167 | The critical section: refuses when closing, then for an active job, too many completed ones or full storage, in this order, and otherwise adds a queued job. |
| `ExportObject.ExportManager.Totals` | nvda-addon/globalPlugins/_nvdaHttpBridge/exports.py:141-148 | The sums over the table are those of the specification. |
| `ExportObject.ExportManager.CancelSensitive` | nvda-addon/globalPlugins/_nvdaHttpBridge/exports.py:352-365 | Revokes every job in the table in memory and touches no file. |
| `ExportObject.ExportManager.CleanupExpired` | nvda-addon/globalPlugins/_nvdaHttpBridge/exports.py:367-384 | Expires every overdue job that is not active, deletes its files, and drops it from the table only if both deletions succeeded. |
| `Exports.Capped` | nvda-addon/globalPlugins/_nvdaHttpBridge/exports.py:169-180 | An effective limit is the smaller of the requested one, if any, and the emergency cap. |
| `ExportObject.ExportJob.Begin` | nvda-addon/globalPlugins/_nvdaHttpBridge/exports.py:185-190 | The worker's first critical section: canceled if the flag is set, running otherwise. |
| `ExportObject.ExportJob.CheckLoop` | nvda-addon/globalPlugins/_nvdaHttpBridge/exports.py:214-218 | At the head of its loop and after it the worker stops for a cancel, and for the maximum duration only while the walk is not done. |
| `ExportObject.ExportJob.Settle` | nvda-addon/globalPlugins/_nvdaHttpBridge/exports.py:269-285 | A cancellation ends a job as canceled, any other exception as failed. |
| `ExportObject.ExportJob.CleanUp` | nvda-addon/globalPlugins/_nvdaHttpBridge/exports.py:286-290 | The worker ends by deleting the files of a job that is not published. |
| `ExportObject.ExportJob.WriteBatch` | nvda-addon/globalPlugins/_nvdaHttpBridge/exports.py:229-244 | Writes a batch line by line until a quota refuses a line; bytes and nodes count what was written. |
| `ExportObject.ExportJob.Publish` | nvda-addon/globalPlugins/_nvdaHttpBridge/exports.py:259-268 | Publishes exactly if no cancel was set and the rename succeeded. |
| `ExportObject.ExportJob.Cancel` | nvda-addon/globalPlugins/_nvdaHttpBridge/exports.py:342-350 | Sets the cancel flag; a completed job loses its files as far as they can be deleted, and is canceled. |
| `ExportObject.ExportJob.Revoke` | nvda-addon/globalPlugins/_nvdaHttpBridge/exports.py:355-362 | Sets the cancel flag; a completed job is canceled and expires at once. |
| `ExportObject.ExportJob.DeleteFiles` | nvda-addon/globalPlugins/_nvdaHttpBridge/exports.py:453-463 | Tries the files that exist and reports success exactly if none is left. |
| `ExportObject.ExportJob.Prepare` | nvda-addon/globalPlugins/_nvdaHttpBridge/exports.py:192-199 | The first call to the main thread: the security checks, the root, and the start of its walk. |
| `ExportObject.ExportJob.OpenPart` | nvda-addon/globalPlugins/_nvdaHttpBridge/exports.py:207-207 | Creates the partial file, and fails if it exists. |
| `ExportObject.ExportJob.FinalCheck` | nvda-addon/globalPlugins/_nvdaHttpBridge/exports.py:253-256 | The barrier after the last batch: goes on exactly if the check on the main thread passes. |
| `ExportWorker.RunWorker` | nvda-addon/globalPlugins/_nvdaHttpBridge/exports.py:182-290 | The whole thread of a job, driving a real walker under any nondecreasing clock, with main-thread calls, an opening, a rename and deletions that may fail, ends; what it does to the job is a run of the machine's worker steps, and the job is then completed with the whole bounded traversal in the published file and no partial file, or canceled or failed. |
| `ExportWorker.EndedWorkerLeaves` | nvda-addon/globalPlugins/_nvdaHttpBridge/exports.py:182-290 | The same for every undisturbed series of the worker's steps that comes to its end. |
| `Events.AppendRetains` | nvda-addon/globalPlugins/_nvdaHttpBridge/events.py:36-49 | The buffer always holds the newest events of its instance's log, with contiguous ids up to the last. |
| `Events.SetEnabledRetains` | nvda-addon/globalPlugins/_nvdaHttpBridge/events.py:108-116 | Suspending, resuming and rotating keep that, rotation with an empty log. |
| `Events.GapIffEventLost` | nvda-addon/globalPlugins/_nvdaHttpBridge/events.py:51-63 | For a positive cursor a read reports a gap if and only if an event after the cursor is gone while a later one is held. |
| `Events.GaplessReadIsConsecutive` | nvda-addon/globalPlugins/_nvdaHttpBridge/events.py:51-63 | A read without a gap returns the matching events after the cursor with none left out in between. |
| `Events.ReadIsFollowing` | nvda-addon/globalPlugins/_nvdaHttpBridge/events.py:51-63 | Any read returns events after the cursor that leave nothing out between them. |
| `Events.ReadIsExact` | nvda-addon/globalPlugins/_nvdaHttpBridge/events.py:51-63 | A read returns the first of the held events that are after the cursor and of a requested type, in order: at most max(1, limit) of them, and every further one comes after those. |
| `Events.RecoverySkipsNothing` | nvda-addon/globalPlugins/_nvdaHttpBridge/events.py:65-76 | Every held event after the cursor is after the recovery cursor too. |
| `Events.BufferFillsUp` | nvda-addon/globalPlugins/_nvdaHttpBridge/events.py:36-49 | After any series of appends an open buffer holds the newest events, as many as there is room for: none is dropped before it is full. |
| `EventsObject.EventBuffer.Append` | nvda-addon/globalPlugins/_nvdaHttpBridge/events.py:36-49 | Appends exactly when enabled and open, dropping the oldest when full. |
| `EventsObject.EventBuffer.ReadAfter` | nvda-addon/globalPlugins/_nvdaHttpBridge/events.py:51-63 | The loop returns the matching events after the cursor, at most limit of them, and the gap flag; each is held, after the cursor and of a requested type. |
| `EventsObject.EventBuffer.RecoveryCursor` | nvda-addon/globalPlugins/_nvdaHttpBridge/events.py:65-76 | The cursor it returns never goes back and never has a gap. |
| `EventsObject.EventBuffer.SetEnabled` | nvda-addon/globalPlugins/_nvdaHttpBridge/events.py:108-116 | Sets the flag, and clears and rotates as asked. |
| `EventsObject.EventBuffer.Close` | nvda-addon/globalPlugins/_nvdaHttpBridge/events.py:118-123 | Closes, disables and empties. |
| `EventsObject.WaitAfter` | nvda-addon/globalPlugins/_nvdaHttpBridge/events.py:86-101 | A wait ends at the first wake-up with something to say or no time left: suspended or closed, an event or a gap for the reader; it times out only at a silent one at or after the deadline. |
| `Sse.NothingIsLostSilently` | nvda-addon/globalPlugins/_nvdaHttpBridge/server.py:455-486 | Over every run within one buffer instance, with appends, overflows, clears and suspensions in between, item ids strictly increase, no reset goes back, and a matching event is left out between two items, or between a nonzero cursor and the first, only if a reset is written there. |
| `Sse.ReaderStepKeeps` | nvda-addon/globalPlugins/_nvdaHttpBridge/server.py:459-486 | Every step of the delivery loop keeps the invariant behind this: the cursor stands at the last item unless a reset has followed it. |
| `SseOrder.ItemsAlwaysRise` | nvda-addon/globalPlugins/_nvdaHttpBridge/server.py:459-486 | In every run, rotations included, item ids strictly increase and no message of an earlier instance follows one of a later instance. |
| `SseOrder.StaleClientIsResetFirst` | nvda-addon/globalPlugins/_nvdaHttpBridge/server.py:455-458 | A client that names another instance receives a reset before anything else. |
| `SseContents.OnlyRequestedIsWritten` | nvda-addon/globalPlugins/_nvdaHttpBridge/server.py:438-482 | In every run, rotations included, a client receives only events of the types it requested, and of the buffer's instance only events that were appended in it. |
| `SseContents.RestrictedWritesNothing` | nvda-addon/globalPlugins/_nvdaHttpBridge/server.py:461-499 | While the session is restricted nothing is written, whatever the loop had in hand. |
| `SseContents.WaitingStreamGoesOn` | nvda-addon/globalPlugins/_nvdaHttpBridge/server.py:459-486 | A stream that waits on an open buffer with a gap before its cursor writes a reset next, also if no event matches, and one with a requested event after its cursor writes it. |
| `SseContents.RoundWritesAll` | nvda-addon/globalPlugins/_nvdaHttpBridge/server.py:459-486 | An undisturbed round writes a reset at the recovery cursor if there was a gap, then every event of the batch in order, and a keep-alive if and only if the batch is empty. |
| `SseContents.NoHeaderStartsAtOldest` | nvda-addon/globalPlugins/_nvdaHttpBridge/server.py:442-449 | A client without a Last-Event-ID receives the first of the held events of the requested types, and no reset before them. |
| `SseContents.BadHeaderIsResetFirst` | nvda-addon/globalPlugins/_nvdaHttpBridge/server.py:445-458 | A client whose header is not an id of the buffer's instance receives a reset before anything else. |
| `SseLoss.SilentLossIffCursorIsZero` | nvda-addon/globalPlugins/_nvdaHttpBridge/server.py:459-466 | For every open buffer that can hold an event: no run within its instance loses an event silently if and only if the client's cursor is not 0. |
| `SseLoss.SomeRunLosesSilently` | nvda-addon/globalPlugins/_nvdaHttpBridge/server.py:459-466 | Every waiting stream whose cursor is 0 or beyond the events so far has a run whose only message is an item beyond an event left out. |
| `SseLoss.CursorAheadIsHarmlessIff` | nvda-addon/globalPlugins/_nvdaHttpBridge/server.py:459-486 | For a stream with a nonzero cursor and nothing in hand: no event above n, n at most the cursor, is left out silently if and only if no item comes first or no matching event lies above n and up to the cursor. |
| `SseRotation.WatchfulStreamEnds` | nvda-addon/globalPlugins/_nvdaHttpBridge/server.py:461-486 | If the loop reads or writes between a rotation and the next enabling of the buffer, the stream ends with nothing more written. |
| `SseRotation.RotationUnderStream` | nvda-addon/globalPlugins/_nvdaHttpBridge/server.py:455-486 | A rotation under a stream wherever its loop is: items in hand are dropped and nothing but resets and keep-alives follows; a reset that is due is written first, one about to be written with the new instance and the old cursor; with nothing in hand and a nonzero cursor nothing is lost silently if and only if no item comes first or no matching event of the new instance has an id up to the cursor. |
| `SseRotation.RotationIsHarmlessIff` | nvda-addon/globalPlugins/_nvdaHttpBridge/server.py:455-486 | The same for any client, after any run of its stream, with a positive cursor. |
| `SseRotation.SurvivorCanLoseSilently` | nvda-addon/globalPlugins/_nvdaHttpBridge/events.py:108-116 | Every waiting stream that survives a rotation with a positive cursor has a run that leaves out an event of the new instance with no reset. |
| `SseObject.SseHandler.ServeRound` | nvda-addon/globalPlugins/_nvdaHttpBridge/server.py:461-486 | With nobody else at work, the handler's code after a wait is the machine's run up to the next wait. |
| `SseObject.SseHandler.Reconnect` | nvda-addon/globalPlugins/_nvdaHttpBridge/server.py:455-458 | The reset for a stale client is the machine's run up to the first wait. |
| `SseObject.SseHandler.DeliverItems` | nvda-addon/globalPlugins/_nvdaHttpBridge/server.py:467-478 | The loop over a batch is the machine's series of item writes, up to the first that is refused. |
| `Wire.StreamComesBack` | nvda-addon/globalPlugins/_nvdaHttpBridge/server.py:490-499 | The client's parser returns every printed message's id, event name and payload in order, keep-alives changing nothing, up to max_events. |
| `Wire.CutStreamComesBack` | skill/scripts/nvda_http_bridge.py:213-246 | Wherever the stream is cut, the client returns exactly the messages that arrived whole. |
| `Wire.ComesBackIffOneLine` | skill/scripts/nvda_http_bridge.py:224-246 | A message comes back unchanged if and only if its id and event name have no line feed and no carriage return at their end. |
| `Wire.ReadEvents` | skill/scripts/nvda_http_bridge.py:209-237 | The client's loop over lines computes the specified parse. |
| `Resume.IdResumes` | nvda-addon/globalPlugins/_nvdaHttpBridge/server.py:440-449 | An id sent back as Last-Event-ID gives the same cursor in the same instance and is stale in every other. |
| `Resume.HeaderIsExact` | nvda-addon/globalPlugins/_nvdaHttpBridge/server.py:440-451 | A header resumes at a cursor if and only if it is empty, at 0, or is the instance, a colon and the text of that integer; every other one is taken for another instance's. |
| `Resume.OnlyNumeralsParse` | nvda-addon/globalPlugins/_nvdaHttpBridge/server.py:446-446 | What int() accepts has a digit, and otherwise only digits, underscores, signs and blanks. |
| `Resume.DecimalParses` | nvda-addon/globalPlugins/_nvdaHttpBridge/server.py:446-446 | int() inverts the decimal rendering of every cursor. |
| `Resume.ReconnectingLosesNothing` | nvda-addon/globalPlugins/_nvdaHttpBridge/server.py:440-486 | A client that loses its connection any number of times, each after any number of whole messages, and resumes from its last id sees the streams as one: nothing is left out between items without a reset. |
| `Delivery.CutStreamResumes` | skill/scripts/nvda_http_bridge.py:209-246 | From the delivery loop over the wire to the client: a stream cut anywhere, read up to any number of events, yields exactly the events of the first k messages, all the whole ones unless it had enough before; the last id among them resumes at the cursor after those. |
| `Delivery.ClientLosesNothingSilently` | skill/scripts/nvda_http_bridge.py:209-246 | Over any number of requests, each with the last id parsed before, all the events the client's parser returns are those of one series of messages with nothing left out between items without a reset. |
| `Security.RestrictedMeansEmpty` | nvda-addon/globalPlugins/_nvdaHttpBridge/service.py:774-789 | In every run, with speech captured on other threads, from the end of a transition to restricted until the flags are freed, further restricting transitions included, the event buffer, the speech history and the registry are empty and capture is off. |
| `Security.FreeMeansLive` | nvda-addon/globalPlugins/_nvdaHttpBridge/service.py:774-780 | Whenever the session is free and no transition is under way, capture is on. |
| `Security.StaysEmpty` | nvda-addon/globalPlugins/_nvdaHttpBridge/events.py:152-159 | From any state with empty, closed stores and no capture under way, no series of steps of any threads during which the flags stay restricted puts anything back. |
| `Security.RestrictingRotates` | nvda-addon/globalPlugins/_nvdaHttpBridge/service.py:786-786 | Between a free session and any later restricted one the buffer gets another instance, so earlier cursors are stale. |
| `SecurityRuns.FlagIsLastGiven` | nvda-addon/globalPlugins/_nvdaHttpBridge/auth.py:17-27 | After any run each flag has the value that a transition last gave for it. |
| `SecurityRuns.FlagStays` | nvda-addon/globalPlugins/_nvdaHttpBridge/auth.py:17-27 | A flag for which no transition gives a value stays as it was. |
| `SecurityRuns.RestrictedIffSomeFlag` | nvda-addon/globalPlugins/_nvdaHttpBridge/auth.py:29-31 | A session is restricted if and only if one of the three flags is set. |
| `SecurityRuns.SettingAFlagEmpties` | nvda-addon/globalPlugins/_nvdaHttpBridge/service.py:774-789 | After a finished transition in which any argument is true, whatever other threads did meanwhile, every store is empty and closed, the buffer has a new instance and the registry a new generation. |
| `SecurityRuns.ClearingAllFlagsFrees` | nvda-addon/globalPlugins/_nvdaHttpBridge/service.py:774-780 | After a finished transition that leaves no flag set capture is on, and nothing that was held is lost. |
| `SecurityRuns.SpeechIsCaptured` | nvda-addon/globalPlugins/_nvdaHttpBridge/events.py:152-159 | In a free session an utterance becomes the newest entry of the history, which keeps the 100 newest, and the newest event. |
| `SecurityObject.SecurityState.Update` | nvda-addon/globalPlugins/_nvdaHttpBridge/auth.py:17-27 | Sets the flags that are given and answers whether the session was and is restricted. |
| `SecurityObject.BridgeService.SecurityChanged` | nvda-addon/globalPlugins/_nvdaHttpBridge/service.py:774-780 | With no other thread at work the transition over the real stores is the machine's run of its stages. |
| `SecurityObject.BridgeService.ClearSensitive` | nvda-addon/globalPlugins/_nvdaHttpBridge/service.py:782-789 | Suspends, clears and rotates the events, then the speech, the registry and the generation, in this order. |
| `SecurityObject.SpeechObserver.Record` | nvda-addon/globalPlugins/_nvdaHttpBridge/events.py:152-159 | History and event are written together or not at all. |
| `SecurityObject.SpeechParts` | nvda-addon/globalPlugins/_nvdaHttpBridge/events.py:135-145 | The parts kept of an utterance are the first 8192 characters of its text. |
| `RateLimiter.AcceptedIffRoomInWindow` | nvda-addon/globalPlugins/_nvdaHttpBridge/auth.py:80-88 | Under nondecreasing times a call is accepted if and only if fewer than limit earlier calls were accepted in (now - window, now]. |
| `RateLimiter.NoWindowHoldsMore` | nvda-addon/globalPlugins/_nvdaHttpBridge/auth.py:80-88 | No half-open window of that length ever holds more than limit accepted calls. |
| `RateLimiter.QueueIsWindow` | nvda-addon/globalPlugins/_nvdaHttpBridge/auth.py:84-85 | Popping from the front leaves exactly the accepted calls inside the window. |
| `RateLimiter.KeysAreSeparate` | nvda-addon/globalPlugins/_nvdaHttpBridge/auth.py:83-83 | Calls under one key do not affect another. |
| `RateLimiter.Limiter.Check` | nvda-addon/globalPlugins/_nvdaHttpBridge/auth.py:80-88 | The method's loop computes this verdict and the key's new queue. |

## Left out

- The values of object fields, their serialization and error texts: a record keeps the object, its id, its place and whether reading its links failed.
- Changes of the object graph during a walk: identity, first child and next sibling are functions; so is the id that the registry gives an identity within one walk.
- Frames are values in a sequence; in the source they are objects that only the walker holds.
- `TreeNested.Nested`: lists that are not prefixes of a walk, in which several records may have no parent, are not modelled.
- `parse_sync_options`, `parse_export_options` and the other request checks: they would add only easy members.
- Waiting, thread creation and joins, `ExportManager.close` and its timed joins, `start` with its orphan cleanup, and the bridge's shutdown other than the executor's.
- Readings of the monotonic clock: `register`, `resolve` and `check` read it just before they take the lock, and are modelled as one step under a clock that does not go back.
- `ExportObject.ExportManager.Create`: the three checks are one step although job states are read one after another; a job that was read as not active never becomes active again, and completed jobs only become fewer while the manager's lock is held. In the machine of `Exports` the cleanup pass is a step of its own and the security check is left out, so it admits jobs that the source refuses. Failures to make the directory and to start the thread are not modelled.
- `ExportObject.ExportJob.DeleteFiles`: the two deletions are one step, each with its own outcome; buffering of the partial file and its error count are not modelled.
- `ExportWorker.RunWorker`: runs undisturbed in a session that is not restricted; a cancel or a transition between its steps is in the machine of `Exports`. Whether each main-thread call is answered, the file opens and the rename succeeds are parameters.
- `EventsObject.WaitAfter`: the condition variable is the series of moments at which the waiting thread holds the lock; that the last of them is not before the deadline is assumed.
- `SseObject.SseHandler.ServeRound`: the check and the write to the socket that follows it are one step, and a failed write is a disconnection; other HTTP handling, slots and headers are not modelled.
- `Wire.StreamComesBack`: JSON encoding and decoding are parameters with decode after encode the identity and no line end in the encoded text; UTF-8 is taken as the identity on text.
- `Resume.DecimalParses`: `int()` is modelled on ASCII text only.
- `Security.RestrictedMeansEmpty`: the jobs of backups and diagnostics are not modelled; those of exports are in `ExportRuns.RestrictedMeansNothingDownloadable`.
- `SecurityObject.SpeechParts`: joining the parts with spaces, stripping and the replacement of unencodable characters are not modelled; nor is the cut of event type names at 64 characters.
- Random ids are fresh names; wall-clock strings, metrics and log messages are not modelled.
- Backups and diagnostics repeat the job machine of exports; settings, status, gestures, dictionaries and text reading are calls into NVDA, which is not part of this model.

# Verified models of the ice concurrency primitives

ice is a C++ coroutine library. This project models its hand-written concurrency primitives and
its incremental line parser in Dafny, and proves what they promise, for every interleaving, every
number of threads and every input.

## How a primitive is modelled

Each lock-free primitive is modelled twice.

* A **protocol** (`*Protocol.dfy`, `AwaitChain.dfy`, `LogAdmission.dfy`, `Starter.dfy`, `Event.dfy`) is a state
  machine: a state, and a function `Step(state, action)` in which one action is one atomic access to
  shared memory, one `resume()` or one `destroy()`. An action that is not enabled changes nothing, so
  a statement about every sequence of actions is a statement about every interleaving. `Reach` is the
  state a sequence of actions leads to. The machines do not presuppose what they are to show: a
  failed assert, a resume of a coroutine that is not suspended, an access to a destroyed frame, a
  second destruction, a null dereference or a data race is a `fault`, and it is proved that no
  sequence of actions has one. A coroutine that has been resumed and the code that resumed it go on
  side by side, which covers nested execution on one thread and a hop to another thread.
* A **class** (`Generator.Promise`, `AsyncMutex.Mutex`, `Scheduler.Scheduler`, `Service.Service`,
  `Context.Context`, `Async.Chain`, `Starter.Starter`, `Event.Event`, `Log.Logger`, `Parser.Parser`) holds the fields of
  the C++ object and has methods with the branches, the loops and the order of accesses of the C++
  code. Before each access a method calls `Others`, which performs whatever a script (`turns`,
  `interference`) says the other threads do at that moment; the scripts are arbitrary. Each access is
  recorded with `Did` as one step of the protocol, so `Valid()`, which says that the object is in the
  state the recorded sequence reaches, makes every theorem about the protocol a theorem about the
  code. For the mutex and the scheduler the lists are linked nodes on the heap, and the in-place
  reversal loops are verified on them. `Service` and `Context` use the stack of posts through
  numbers; `Refinement` shows that the numbers are the positions of the scheduler's nodes among the
  posts, step by step and over every run.

Atomics are sequentially consistent. A weak exchange may fail for no reason.

| file | what it models |
|---|---|
| `GeneratorProtocol`, `GeneratorTheorems`, `Generator` | the five-state handshake of `async_generator` |
| `MutexProtocol`, `MutexTheorems`, `AsyncMutex` | `async_mutex`, with any number of lock operations |
| `Scheduler` | the stack of posted schedules: `post`, `acquire`, `process`, with any number of threads |
| `ServiceProtocol`, `Service` | `service::run`, `stop`, `post`; the kernel is one armed bit and a list of reported entries |
| `ContextProtocol`, `Context` | `context::run` on any number of threads |
| `Refinement` | the numbers in the service and the context against the nodes of the scheduler |
| `AwaitChain`, `Async` | coroutines of type `async<T>` awaiting each other to any depth |
| `Starter` | `starter::start`: a coroutine started from outside the coroutines |
| `Event` | the Windows `event` |
| `ParserSpec`, `ParserTheorems`, `ParserCalls`, `Parser` | the parser, an independent batch splitter and an independent description of the handler calls, and why they agree |
| `LogAdmission`, `Log` | the logger's admission counter |
| `Sequences`, `Chains` | reversal, sequences without repetition, linked lists |

The generator's callers are assumed to keep to its rules: there is one consumer, each advance is
awaited before the next one starts, nobody advances past the end, and the generator is destroyed only
while the consumer is not inside an advance. The mutex is unlocked only by the operation that holds it,
and a lock operation is awaited again only after its lock has been released. A schedule is not posted
again before it has been resumed.

Where the code and its comments differ, the code is followed. `state::more` is described as "continue
matching", but when no later matcher takes a partial line the rest of that line is skipped
(`parser.hpp`, lines 97 to 103). A carriage return in text that is being skipped is ignored like any
other character, and a line made of spaces, tabs, backspaces, form feeds and alerts counts as blank.

## Model

| member | source | states |
|---|---|---|
| GeneratorTheorems.NoFaultEver | src/ice/include/ice/async.hpp:703-858 | no assert of the handshake fails, each stated as what the word can be at that point; only suspended coroutines are resumed, a destroyed frame is never touched, nothing is destroyed twice, no value is overwritten while it may be read: in every interleaving |
| GeneratorTheorems.NoLostWakeUp | src/ice/include/ice/async.hpp:777-858 | producer and consumer are never both parked; a suspended consumer has a live producer that is not parked; at rest everything yielded has been handed over and a released generator is destroyed |
| GeneratorTheorems.EveryResumeFindsASleeper | src/ice/include/ice/async.hpp:769-772 | whoever is about to resume the other side finds it parked, and the step leaves it running |
| GeneratorTheorems.StreamIsExact | src/ice/include/ice/async.hpp:968-976 | the values handed over are a prefix of the values yielded, at most one behind; what is dereferenced is the last value yielded; the end is seen only after everything has been handed over |
| GeneratorTheorems.StreamOnlyGrows | src/ice/include/ice/async.hpp:877-881 | nothing handed over is taken back; a finished stream does not grow |
| GeneratorTheorems.DestroyedByTheRightSide | src/ice/include/ice/async.hpp:703-709 | the consumer destroys the frame only if its cancelling exchange saw a suspended producer, the producer only if it saw an active one, and nobody before the cancellation |
| GeneratorTheorems.DestroyedIsTheEnd | src/ice/include/ice/async.hpp:805-808 | once the frame is gone no action changes anything |
| GeneratorTheorems.ReleaseIsPrompt | src/ice/include/ice/async.hpp:795-807 | after a release the frame is destroyed within three turns of the producer, whatever is scheduled between them |
| GeneratorTheorems.NoRace | src/ice/include/ice/async.hpp:726-733 | the coroutine handle and the value pointer are never written by one side while the other may use them |
| GeneratorTheorems.HandshakeIsBounded | src/ice/include/ice/async.hpp:777-858 | over any interleaving there are at most twelve effective protocol steps for each decision of the two bodies, so neither side can be made to spin |
| GeneratorProtocol.StepKeepsInv | src/ice/include/ice/async.hpp:764-858 | every step of every side keeps the invariant that relates the word, both positions, the frame and the stream |
| Generator.OthersStay | src/ice/include/ice/async.hpp:718-733 | a side that is not parked is moved by nobody else |
| Generator.Promise.LoadBeforeYield | src/ice/include/ice/async.hpp:766-769 | the two asserts on the state seen at a yield hold, and the branch taken is the one for the state seen |
| Generator.Promise.SuspendUnlessChanged | src/ice/include/ice/async.hpp:781-803 | success parks the producer in a live frame; the only values a failure can see are "consumer suspended" and, on the second exchange, "cancelled" |
| Generator.Promise.InternalYieldValue | src/ice/include/ice/async.hpp:764-775 | the state held afterwards describes where the consumer is |
| Generator.Promise.YieldAwaitSuspend | src/ice/include/ice/async.hpp:777-808 | true: parked in a live frame, or destroyed by itself; false: runs on, and is not at its end; the assert before `destroy` holds |
| Generator.Promise.CoYield | src/ice/include/ice/async.hpp:758-762 | one more value in the stream, or its end: the stream is marked as ended exactly by a null value; the frame survives unless it was cancelled; a final suspend never runs on |
| Generator.Promise.StartAdvance | src/ice/include/ice/async.hpp:816-829 | a producer that the first load finds suspended is resumed exactly once, otherwise nobody is; the state held afterwards decides whether the consumer is ready |
| Generator.Promise.WaitUnlessChanged | src/ice/include/ice/async.hpp:842-857 | a failed exchange can only have seen a suspended producer, which is the assert at line 847 |
| Generator.Promise.AdvanceAwaitSuspend | src/ice/include/ice/async.hpp:837-858 | true: suspended; false: a value or the end is ready; both asserts hold |
| Generator.Promise.AwaitResume | src/ice/include/ice/async.hpp:995-1004 | either exactly the next value is handed over and is the last one yielded, or the stream is finished and complete |
| Generator.Promise.RequestCancellation | src/ice/include/ice/async.hpp:703-709 | both asserts hold; the answer is whether the producer was suspended |
| Generator.Promise.Destruct | src/ice/include/ice/async.hpp:1026-1033 | the consumer destroys the frame if and only if its exchange saw a suspended producer |
| MutexTheorems.NoFaultEver | src/ice/include/ice/async.hpp:1191-1215 | the asserts in `unlock` hold, the reversal follows no null pointer, only waiting operations are resumed |
| MutexTheorems.MutualExclusion | src/ice/include/ice/async.hpp:1174-1179 | at most one operation has the lock; "not locked" means no holder and nobody parked; whoever waits is in line behind a holder |
| MutexTheorems.QueueIsArrivalOrder | src/ice/include/ice/async.hpp:1202-1213 | grants followed by the holder's list and the reversed stack are the arrivals in order, also in the middle of an `unlock` |
| MutexTheorems.DestructorAsserts | src/ice/include/ice/async.hpp:1167-1172 | nobody waits if and only if the line is empty, and then the destructor's asserts hold |
| MutexTheorems.WaitersArePrivate | src/ice/include/ice/async.hpp:1194-1213 | only the holder changes `m_waiters` |
| MutexTheorems.NobodyOvertakes | src/ice/include/ice/async.hpp:1174-1235 | whenever the holder changes, the lock was free with nobody waiting, or is set free with nobody waiting, or goes to the first in line |
| MutexTheorems.FifoBound | src/ice/include/ice/async.hpp:1217-1235 | an operation pushed behind k parked ones gets the lock by exactly the (k+1)-th grant that follows and waits until then |
| MutexTheorems.TheHolderIsNeverStuck | src/ice/include/ice/async.hpp:1191-1215 | the next step of the holder always does something |
| MutexTheorems.UnlockIsWaitFree | src/ice/include/ice/async.hpp:1202-1214 | once `unlock` has taken the stack it hands over the lock in one turn of its own for each waiter and two more, whatever the others do |
| MutexProtocol.UnlockMovesTheQueue | src/ice/include/ice/async.hpp:1191-1215 | no step of `unlock` changes the line, except that the last one removes its head |
| MutexProtocol.AttemptMovesTheQueue | src/ice/include/ice/async.hpp:1217-1235 | a successful push appends to the line; everything else in `await_suspend` leaves it alone |
| MutexProtocol.StepKeepsInv | src/ice/include/ice/async.hpp:1174-1235 | every step of every operation keeps the invariant |
| AsyncMutex.OthersLeaveMe | src/ice/include/ice/async.hpp:1191-1235 | the other operations can neither move one that is not waiting nor touch the holder's list |
| AsyncMutex.UnlockServesTheFirst | src/ice/include/ice/async.hpp:1191-1215 | an `unlock` that freed the lock began with nobody in line; one that granted it granted it to the first arrival not granted before, whether it was in line at the start or came later |
| AsyncMutex.Mutex.TryToLock | src/ice/include/ice/async.hpp:1174-1179 | success makes the caller the holder of a lock nobody waits for; failure means that it is locked and leaves the caller as it was |
| AsyncMutex.Mutex.AwaitSuspend | src/ice/include/ice/async.hpp:1217-1235 | true: parked on top of the stack and last to arrive; false: holder; retries are at most the changes others made to the word during the call plus the spurious failures |
| AsyncMutex.Mutex.PushUnlessChanged | src/ice/include/ice/async.hpp:1228-1232 | it succeeds if and only if the word is as expected and no spurious failure occurs; the heap list behind the word grows by this node |
| AsyncMutex.Mutex.TakeStack | src/ice/include/ice/async.hpp:1202-1204 | the exchange returns the head of a non-empty heap list: the assert at line 1203 |
| AsyncMutex.Mutex.ReverseStack | src/ice/include/ice/async.hpp:1204-1210 | the in-place loop terminates with exactly the reversed list, null-terminated, for lists of any length and while others push |
| AsyncMutex.Mutex.Relink | src/ice/include/ice/async.hpp:1206-1209 | one turn of that loop is one step of the protocol and touches one node |
| AsyncMutex.Mutex.KeepTheRest | src/ice/include/ice/async.hpp:1212-1213 | the head is not null, and `m_waiters` becomes the list after it |
| AsyncMutex.Mutex.Unlock | src/ice/include/ice/async.hpp:1191-1215 | frees the lock only if nobody was in line when it began; otherwise resumes exactly one operation as the new holder: the first arrival that had not been granted the lock before |
| Chains.MoveOne | src/ice/include/ice/async.hpp:1206-1209 | moving one node from the rest of a linked list to the front of the reversed part keeps both lists well formed |
| Sequences.ReverseTurn | src/ice/include/ice/scheduler.hpp:84-88 | one turn of a reversal loop keeps "the rest reversed, then what is done" |
| Scheduler.OthersConserve | src/ice/include/ice/scheduler.hpp:76-99 | whatever others post and take, the posts are what was taken and then the stack backwards, and nothing a thread holds reappears on the stack |
| Scheduler.Scheduler.Post | src/ice/include/ice/scheduler.hpp:92-99 | the new stack is this schedule on top of what the others left; retries are at most the changes they made to the head plus the spurious failures |
| Scheduler.Scheduler.PushWeak | src/ice/include/ice/scheduler.hpp:95-98 | one attempt: a failure implies that somebody changed the head or that it was spurious |
| Scheduler.Scheduler.TakeAll | src/ice/include/ice/scheduler.hpp:78-78 | the exchange takes exactly the stack the others have left, as the next part of the order of taking |
| Scheduler.Scheduler.Acquire | src/ice/include/ice/scheduler.hpp:76-90 | takes the whole stack and returns a null-terminated heap list of it in order of posting, with the shortcut for one node; it contains everything posted before and not taken |
| Scheduler.Scheduler.ReverseBatch | src/ice/include/ice/scheduler.hpp:82-89 | the in-place loop terminates with exactly the reversed list while others post and take |
| Scheduler.Scheduler.ResumeFirst | src/ice/include/ice/scheduler.hpp:103-107 | the link is read before the node is resumed; afterwards the node's link may hold anything; with one runner, taken stays resumed followed by the batch in hand |
| Scheduler.Scheduler.Process | src/ice/include/ice/scheduler.hpp:101-109 | the batch is the next part of the order of taking, reaches past everything posted before the call, and is resumed once, in order, also while other threads take; with one runner everything taken has been resumed, in order |
| ServiceProtocol.PostsAreConserved | src/ice/include/ice/scheduler.hpp:76-109 | resumed, then at hand, then the stack backwards are the posts in order, at every moment: each is resumed at most once and in order |
| ServiceProtocol.NoPostIsLost | src/ice/src/ice/net/service.cpp:117-172 | while an announced post is on the stack, the interrupt is armed or the runner has been told and has not yet taken the stack |
| ServiceProtocol.NoStopIsLost | src/ice/src/ice/net/service.cpp:132-171 | while `stop_` is set, the local flag is set, or the interrupt is armed, or a stopper is in its call, or the reload is pending |
| ServiceProtocol.NeverSleepsOnWork | src/ice/src/ice/net/service.cpp:131-137 | if the wait has no timeout and nothing will wake it and all calls have returned, everything has been resumed and `stop_` is not set |
| ServiceProtocol.ExitAfterTimeout | src/ice/src/ice/net/service.cpp:138-145 | an exit after a timed-out wait has resumed every post whose interrupt had completed when that wait returned |
| ServiceProtocol.LeavesOnlyWhenStopped | src/ice/src/ice/net/service.cpp:142-144 | without an error `run` leaves only in the check after an empty wait, with `stop_` set and nothing at hand |
| ServiceProtocol.WhatExitLeaves | src/ice/src/ice/net/service.cpp:138-172 | however `run` ended, a post has been resumed if and only if it was made before the stack was last taken; the later ones are on the stack, and if one of them is announced the interrupt is armed |
| ServiceProtocol.ExitAfterSignal | src/ice/src/ice/net/service.cpp:138-145 | after an exit from a wait that a signal cut short: everything announced when that wait returned is resumed if and only if all of it was posted before the stack was last taken; and it is, if the interrupt was not armed when the wait returned |
| ServiceProtocol.SignalWhileWaiting | src/ice/src/ice/net/service.cpp:138-145 | a signal that arrives in the wait while `stop_` is set ends `run`; announced posts are left behind if and only if one of them was posted after the stack was last taken, and then the interrupt is armed |
| ServiceProtocol.TimeOutWhileWaiting | src/ice/src/ice/net/service.cpp:138-145 | a wait that times out while `stop_` is set ends `run`, with everything announced resumed |
| ServiceProtocol.TestDecides | src/ice/src/ice/net/service.cpp:142-144 | however a wait came back empty, the test after it leaves if and only if `stop_` is set |
| ServiceProtocol.ExitAfterSignalMayLeaveWork | src/ice/src/ice/net/service.cpp:138-145 | such a run: the interrupt was armed when the signal cut the wait short, and `run` leaves with the announced post on the stack |
| ServiceProtocol.StepKeepsInv | src/ice/src/ice/net/service.cpp:111-172 | every step of the runner, the posters, the stoppers and the kernel keeps the invariant |
| Service.Service.Stop | src/ice/include/ice/net/service.hpp:32-36 | the value is stored, then the interrupt is armed; at the end the call is no longer pending |
| Service.Service.Post | src/ice/include/ice/net/service.hpp:38-42 | the push, then the interrupt; at the end the post is new, announced, and the interrupt is armed |
| Service.Service.Wait | src/ice/src/ice/net/service.cpp:131-137 | the count the wait returns and what it means: the proposed answer whenever the kernel can give it, entries, a timeout only with the local flag set and nothing armed, a signal, or an error; the interrupt is disarmed exactly by being reported |
| Service.Service.Dispatch | src/ice/src/ice/net/service.cpp:147-168 | `interrupted` is set if and only if the interrupt was among the entries; then, and only then, the local flag is reloaded and is what the last load of `stop_` saw |
| Service.Service.Process | src/ice/include/ice/scheduler.hpp:101-109 | everything posted before it is resumed when it ends |
| Service.Service.LeaveIfStopped | src/ice/src/ice/net/service.cpp:142-144 | it leaves if and only if the load finds `stop_` set, after a timeout as after a signal; the batch is then empty, and after a timeout every settled post is resumed |
| Service.Service.Turn | src/ice/src/ice/net/service.cpp:117-172 | one turn of the loop by what it sees: entries never end it, a failed wait ends it with an error, an empty wait ends it if and only if the test finds `stop_` set |
| Service.Service.Run | src/ice/src/ice/net/service.cpp:111-174 | the loop over any script of kernel answers: it is still running only if it has waited once for each answer and no test found `stop_` set; it has stopped exactly if the last test, and no other, did; what it has resumed; when it reports an error |
| ContextProtocol.ExactlyOnce | src/ice/include/ice/context.hpp:17-36 | with any number of runners every post is in exactly one place (stack, resumed, or one runner's hands) and nothing is resumed twice; no batch is dropped |
| ContextProtocol.ReturnedRunner | src/ice/include/ice/context.hpp:19-29 | a runner that has returned holds nothing, and every post made before its last `acquire` is resumed or in another runner's hands |
| ContextProtocol.LeavesOnlyWhenStopped | src/ice/include/ice/context.hpp:20-24 | a runner leaves only from a check that finds `stop_` set, after an empty `acquire`; it holds nothing then, and every post made before that `acquire` has been taken |
| ContextProtocol.StopEndsTheWait | src/ice/include/ice/context.hpp:20-28 | a runner whose predicate finds `stop_` set returns with three steps of its own, with the mutex free |
| ContextProtocol.OnlyTheMutexStops | src/ice/include/ice/context.hpp:12-37 | a runner that has not returned can always go on, unless another runner holds the mutex it waits for |
| ContextProtocol.OneRunnerIsFifo | src/ice/include/ice/context.hpp:17-36 | with one runner: resumed, then at hand, then the stack backwards are the posts in order, across all batches; when it returns, every post before its last `acquire` is resumed |
| ContextProtocol.StepKeepsInv | src/ice/include/ice/context.hpp:17-36 | every step of every runner, poster and stopper keeps the invariant |
| Context.StepKeepsMe | src/ice/include/ice/context.hpp:15-36 | the other threads cannot move a runner, change its batch or take its mutex |
| Context.Context.Stop | src/ice/include/ice/context.hpp:44-48 | the value is stored, and nothing else changes |
| Context.Context.Post | src/ice/include/ice/context.hpp:50-54 | the post is on top of what was on the stack |
| Context.Context.TryLock | src/ice/include/ice/context.hpp:18-18 | the mutex is taken if and only if it is free at that moment |
| Context.Context.Acquire | src/ice/include/ice/context.hpp:19-28 | in the loop and in the predicate of the wait: it succeeds if and only if something is posted, and takes exactly that, in order |
| Context.Context.LoadStop | src/ice/include/ice/context.hpp:21-21 | the way out is taken if and only if the load finds `stop_` set |
| Context.Context.BlockUnlessStopped | src/ice/include/ice/context.hpp:25-28 | the wait ends if and only if the load in its predicate finds `stop_` set; otherwise the thread blocks and gives up the mutex |
| Context.Context.LeaveIfStopped | src/ice/include/ice/context.hpp:21-24 | a runner that leaves has seen `stop_` set in this call and has nothing in its hands; every post before its last `acquire` is resumed or in another runner's hands; one that does not leave found it clear |
| Context.Context.Wait | src/ice/include/ice/context.hpp:25-28 | the wait ends with a non-empty batch at hand, or because the predicate has just seen `stop_` set after an empty `acquire`; otherwise, once nobody else acts, another runner keeps the mutex, or nothing is posted and `stop_` is not set |
| Context.Context.Drain | src/ice/include/ice/context.hpp:30-35 | the whole batch is resumed |
| Context.Context.Run | src/ice/include/ice/context.hpp:12-37 | the nested loops on one of any number of threads: a runner that returns has seen `stop_` set during the call, has nothing in its hands, and everything posted before the call is resumed or in another runner's hands; it fails to return only if, once nobody else acts, another runner keeps the mutex, or nothing is posted and `stop_` is not set |
| Refinement.PostRefines | src/ice/include/ice/scheduler.hpp:92-99 | numbering the nodes by their position among the posts, a post to the scheduler's list is the step `Push` of the service |
| Refinement.TakeRefines | src/ice/include/ice/scheduler.hpp:76-90 | taking and reversing the list is the step `Acquiring` |
| Refinement.ResumeRefines | src/ice/include/ice/scheduler.hpp:101-109 | one turn of the loop in `process` is the step `Draining` |
| Refinement.OthersRefine | src/ice/include/ice/scheduler.hpp:92-99 | what other threads do to the list in a turn, when none of them takes, are so many steps `Push` |
| Refinement.ServiceRefines | src/ice/src/ice/net/service.cpp:117-172 | over every run of the service and whatever nodes are posted, its stack, batch and log are the numbers of the nodes on the scheduler's list, in the runner's hands and resumed |
| Refinement.ContextRefines | src/ice/include/ice/context.hpp:17-36 | the same for the context and any number of runners, each with its own batch |
| AwaitChain.NoFaultEver | src/ice/include/ice/async.hpp:330-399 | at any depth: no promise is touched after its owner has destroyed it, nothing running is destroyed, nothing is started twice, only parked awaiters are resumed, the continuation is not written while it is used; each stated as what a coroutine finds where it stands |
| AwaitChain.ContinuesOnceAfterCallee | src/ice/include/ice/async.hpp:505-509 | each await is got past exactly once, and never before the callee is at its final suspend point |
| AwaitChain.WhoContinues | src/ice/include/ice/async.hpp:330-367 | an awaiter continues in exactly one of two steps: its own exchange that finds the callee finished, or the callee's resume of a parked awaiter |
| AwaitChain.SomebodyRuns | src/ice/include/ice/async.hpp:330-367 | until the outermost coroutine has finished, some coroutine of the chain can run: no wake-up is lost |
| AwaitChain.AwaitReturns | src/ice/include/ice/async.hpp:505-530 | a whole await, whoever comes first and in whatever chain, ends where it began with the callee destroyed and one more await begun and got past |
| AwaitChain.AwaitBegins | src/ice/include/ice/async.hpp:505-509 | a coroutine that awaits has a new callee, not yet started, at the end of the chain |
| AwaitChain.ReleaseDestroys | src/ice/include/ice/async.hpp:525-530 | releasing a completed callee leaves exactly the coroutines up to the owner, unchanged but for the owner being back in its body, from which it can await another |
| AwaitChain.FinishReachesTheEnd | src/ice/include/ice/async.hpp:330-336 | a coroutine that finishes reaches its final suspend point with at most two steps of its own |
| AwaitChain.AgainIsReady | src/ice/include/ice/async.hpp:500-503 | awaiting a completed coroutine again neither starts nor resumes anything |
| AwaitChain.StepKeepsInv | src/ice/include/ice/async.hpp:320-399 | every step of every coroutine keeps the relation between each awaiter and its callee |
| Async.OthersLeaveMe | src/ice/include/ice/async.hpp:505-509 | nobody else moves a coroutine that is neither parked nor waiting to be started |
| Async.Chain.AwaitSuspend | src/ice/include/ice/async.hpp:505-509 | true: parked, and the callee has the continuation; false: the callee is at its final suspend point |
| Async.Chain.TrySetContinuation | src/ice/include/ice/async.hpp:363-367 | the registration alone, on the promises on the heap: parked with the continuation stored, or the callee is at its final suspend point |
| Async.Chain.FinalAwaitSuspend | src/ice/include/ice/async.hpp:330-336 | a finished coroutine resumes its awaiter exactly if the awaiter came first, and it finds it parked and registered; if it came first itself, the bit was not set and the awaiter, not parked, stays where it is |
| Starter.ContinuesExactlyOnce | src/ice/include/ice/async.hpp:608-617 | whatever coroutine is started and however the two threads run: it is started at most once, the continuation is resumed at most once and only when there is nothing to run or the coroutine is at its final suspend point, and exactly once when both are through |
| Starter.CompletionContinues | src/ice/include/ice/async.hpp:330-336 | after `start` has returned, a coroutine that finishes reaches its final suspend point and resumes the continuation with its own two steps |
| Starter.StarterContinues | src/ice/include/ice/async.hpp:608-617 | if the coroutine finishes before the starter has registered, the starter resumes the continuation |
| Starter.Starter.TrySetContinuation | src/ice/include/ice/async.hpp:363-367 | the registration decides who resumes the continuation |
| Starter.Starter.Start | src/ice/include/ice/async.hpp:608-617 | the branches of `start`: nothing to run, finished meanwhile, or left to the coroutine; afterwards the continuation has been resumed once if there is nothing left to run, and not yet otherwise |
| Event.ResumedExactlyOnce | src/ice/include/ice/net/event.hpp:50-65 | the waiting coroutine is resumed at most once, only after registration and completion, and exactly once when both sides are through |
| Event.Event.AwaitSuspend | src/ice/include/ice/net/event.hpp:50-56 | resumes inside the call exactly if the completion came first; otherwise the completion will |
| Event.Event.Resume | src/ice/include/ice/net/event.hpp:60-65 | the completion's side of the same |
| ParserTheorems.ParserRefinesSplitter | src/ice/include/ice/parser.hpp:33-109 | for any input and any handlers: lines handed over as complete, then those still pending, are the lines of an independent batch splitter, in order and once each; the pending text, return and skip flags are the splitter's too |
| ParserTheorems.RunAgrees | src/ice/include/ice/parser.hpp:37-108 | the same from any state that agrees with a prefix of the input |
| ParserTheorems.OneMoreToken | src/ice/include/ice/parser.hpp:45-75 | how the reference splitter's lines and pending text change with one more character |
| ParserTheorems.LinesSnoc | src/ice/include/ice/parser.hpp:45-67 | the reference read from the left and read one character at a time agree on the lines and on the rest |
| ParserTheorems.TokensSnoc | src/ice/include/ice/parser.hpp:37-43 | the same for the part of the reference that drops text taken by a partial match and text that is skipped |
| ParserTheorems.ReturnsMakeNoDifference | src/ice/include/ice/parser.hpp:45-67 | replacing every LF by CRLF changes neither the handler calls nor the final state, from any state and for any handlers |
| ParserTheorems.BackspacesMakeNoDifference | src/ice/include/ice/parser.hpp:70-73 | deleting every backspace changes neither the handler calls nor the lines handed over |
| ParserSpec.HandleLinesInOrder | src/ice/include/ice/parser.hpp:77-84 | handing over moves lines from the front of `lines_`, in order, and touches nothing else |
| ParserSpec.HandleOnlyCalls | src/ice/include/ice/parser.hpp:149-162 | `handle` changes nothing but the calls made |
| Parser.Parser.Handle | src/ice/include/ice/parser.hpp:149-162 | the loop over the matchers, for any matchers: matching ones are called in turn and none is left out, the first that does not answer "more" is the last one called, and the verdict and error are what the last one called has answered |
| ParserCalls.HandleCalls | src/ice/include/ice/parser.hpp:149-162 | a list of calls and an answer are those of `handle` if and only if they meet the description, which speaks of the list of calls alone: it leaves no choice |
| Parser.Parser.HandleLines | src/ice/include/ice/parser.hpp:77-84 | the loop over the complete lines does, and erases exactly the lines handed over |
| Parser.Parser.Parse | src/ice/include/ice/parser.hpp:33-109 | the fields updated in place, the answer and the error; an ordinary character hands over the pending lines first, in order and as complete lines, up to the first that stops, then tries the current line as a partial one unless it is blank; unless the answer is "done" no complete line is left; any other character calls nobody |
| ParserCalls.ParseAccepts | src/ice/include/ice/parser.hpp:75-108 | from any state: which calls an ordinary character makes, for which line, with which end-of-line flag, and what the answers do to the pending lines, the current line and the skip flag |
| ParserCalls.ParseCallsNobody | src/ice/include/ice/parser.hpp:37-73 | line ends, backspaces and skipped text call no handler and hand over nothing |
| ParserSpec.BlankCodes | src/ice/include/ice/parser.hpp:87-89 | blank lines consist of the characters 7, 8, 9, 11, 12 and 32 and no others |
| Parser.Parser.Run | src/ice/include/ice/parser.hpp:111-122 | the input consumed is exactly what precedes and includes the first character answered with "done" or an error |
| LogAdmission.AdmissionBound | src/ice/src/ice/log.cpp:147-149 | for P threads and limit L, the count plus the threads past the check never exceeds L + P - 1 (0 if L is 0), and the count is admitted minus finished at every step |
| LogAdmission.BoundIsAttained | src/ice/src/ice/log.cpp:147-149 | for every L and P some interleaving attains that bound |
| Log.Logger.Queue | src/ice/src/ice/log.cpp:136-157 | an entry is admitted if and only if the count that was read is below the limit, and then it is counted; the bound holds afterwards |
| Log.Logger.Finish | src/ice/src/ice/log.cpp:54-54 | a finished entry is subtracted exactly once |

## Left out

- Weak memory orderings, the layout of coroutine frames, exceptions and stored exception pointers.
- `begin()` on a moved-from generator: one null test and an iterator at the end.
- Scheduler.Scheduler.Post: addresses may be reused only after the node has been resumed; frees and new allocations at the same address are the same node here.
- Service.Service.Run: the original loops until it is stopped; the method runs for as long as a script of kernel answers lasts, and the theorems hold for scripts of every length.
- Context.Context.Run: a blocked thread is woken after every turn of the others, and the call ends when the others have no turns left; that a notification wakes it is not stated.
- Service.Service.Post: `interrupt` is taken to succeed; its error code is passed through by the original.
- `service::run` on Windows: an empty or timed-out wait leaves the loop without looking at `stop_`.
- ServiceProtocol.ExitAfterTimeout: for timed-out waits only, because a wait cut short by a signal may leave work behind, as ExitAfterSignalMayLeaveWork shows; ExitAfterSignal and SignalWhileWaiting say exactly when.
- ContextProtocol.LeavesOnlyWhenStopped: that a blocked runner is woken is not stated, because `post` and `stop` notify without holding the mutex and a notification can fall between the predicate and the wait. The same holds for a caller of the logger that waits for its entry.
- AwaitChain.SomebodyRuns: an `async` that is awaited by several coroutines, destroyed before it was started, or moved while it runs is not modelled; each coroutine awaits one other at a time and destroys it after it has completed.
- Starter.Starter.Start: for a coroutine that is absent, not yet started or finished; starting one that is running is a misuse of `resume`.
- The destruction of the value in an `async` promise, which is keyed on the bit that registering a continuation also sets.
- LogAdmission.AdmissionBound: for a limit that does not change while threads are inside `queue`, and a counter that does not wrap around.
- ParserTheorems.ParserRefinesSplitter: regular expressions are arbitrary predicates on the line and the end-of-line flag, and handlers arbitrary functions of the calls made so far; a stream that fails or delivers nothing is not modelled.
- The Linux and FreeBSD `event`, sockets, serial ports, SSH, endpoints and the error categories: system calls and library calls.
- The synchronous `generator`, `result`, `option`, `handle`, thread-local storage, terminal and log formatting, and the compile-time random generator: settled by reading one branch.

# Verified models of the GHC runtime system

This project models the self-contained algorithms and protocols of GHC's C runtime system (`rts/`) in
Dafny and proves what they are for. To say that of the bytecode interpreter, it also models the code
schemes of the bytecode compiler. Code that updates state in place is modelled by classes whose
methods have the fields, branches and loops of the C functions; each method is proved against a
function or a predicate on values, and the theorems are lemmas about those.

| part of the runtime system | modules |
|---|---|
| asynchronous exceptions: freezing a stack (`rts/RaiseAsync.c`) | `StackFreezing` |
| asynchronous exceptions: `throwTo` messages (`rts/RaiseAsync.c`, `rts/Messages.c`, `rts/Threads.c`) | `ThrowToState`, `ThrowToSteps` |
| bytecode interpreter (`rts/Interpreter.c`) | `BytecodeMachine`, `InterpretBCO` |
| the code it is given (`compiler/ghci/ByteCodeGen.lhs`) | `SwitchTrees`, `CodeGenerator` |
| capability hand-over (`rts/Capability.c`) | `HandOver`, `CapabilityCode` |
| lag/drag/void profiling (`rts/ProfHeap.c`, `rts/LdvProfile.c`) | `Biography`, `LagDragVoid` |
| retainer profiling (`rts/RetainerProfile.c`, `rts/RetainerSet.c`, `rts/RetainerSet.h`) | `Retainers`, `RetainerGraph`, `RetainerInvariants`, `RetainerExactness`, `RetainerProfile`, `TraverseStack`, `RetainerSets` |
| cost-centre stacks (`rts/Profiling.c`) | `StackTree`, `CostCentreStacks`, `CostReport`, `PruneTree` |
| linear hashing (`rts/Hash.c`) | `Masks`, `LinearHash`, `HashTable` |
| tix files (`rts/Hpc.c`) | `TixFormat`, `TixFile` |
| values that may be absent | `Options` |

`dafny verify dfyconfig.toml` checks everything.

## Where the code and its comments or assertions differ

The models follow the code. These points came out of the proofs.

- The round trip promised for frozen stacks (rts/RaiseAsync.c:699-707) needs more than the comment
  says: no update frame at or above the one in question may share its updatee with one further down.
  `StackFreezing.RoundTrip` gives this condition on the stack as an equivalence, and
  `StackFreezing.SharedUpdatee` a stack that does not meet it.
- A stack check that is not the first instruction of a BCO would not be invisible when it fails,
  because the function starts over; `BytecodeMachine.LateCheckIsVisible` has such a BCO. The compiler
  puts the check first, and the theorem on interruptions assumes just that.
- `ASSERT(censuses[t].void_total < censuses[t].not_used)` (rts/ProfHeap.c:197) should have `<=`:
  `LagDragVoid.AssertionExactly` and `LagDragVoid.HeapProfiler.Destroy` say by the closures' lives when it
  holds, and `LagDragVoid.VoidAssertionIsTooStrict` runs the profiler to a point where it fails. The
  other assertions of that file hold.
- `enterFunCCS` returns early for a function stack directly under MAIN (rts/Profiling.c:365-368), unlike
  the documented operator `++>`; `StackTree.EarlyReturnAgrees` says when this makes no difference.
- `pruneCCSTree` (rts/Profiling.c:993-1018) does not move `prev` past a back edge, so that a pruned child
  takes the back edges right before it along, while others stay and keep their stack in the tree.
  `PruneTree.EntriesLeft` says which entries are left, `PruneTree.KeptExactly` which stacks: those with,
  at or below them, a stack that has costs or whose table has a back edge as its oldest entry.
  `PruneTree.CostlessStackStays` is a tree without costs that is kept. No sum is changed either way.
- `retainClosure` leaves the traverse stack at the current boundary, not, as its comment says, at the
  same place as at its start; `RetainerProfile.Engine.RetainClosure`.
- `addElement` compares the size of a set with the limit by `==` (rts/RetainerSet.c:155), the comment at
  rts/RetainerSet.c:36 says `>=`; the two agree because no set is ever larger than the limit, which must
  be at least one.
- `maybePerformBlockedException` compares `what_next` with `ThreadFinished`, which is a return code of
  threads and no such state (includes/rts/Constants.h:201, 244); a killed thread is therefore not
  handled by its first branch. And a thread that is blocked in STM with interruptible masking takes an
  exception by `throwToMsg` but not by `maybePerformBlockedException`. `ThrowToSteps.Receptive` and
  `ThrowToSteps.CanTake` are the two conditions, `ThrowToSteps.WhereTheyDiffer` lists exactly the threads
  on which they disagree.
- `readTix` reads a number without digits as zero, missing commas as present, and does not look for the
  end of the file within a name. `TixFormat.RoundTrip` shows that the writer's output is read back
  exactly if no module name contains a quote or overruns the reader's buffer.

## Model

| member | source | states |
|---|---|---|
| `StackFreezing.RoundTrip` | rts/RaiseAsync.c:699-707 | for every update frame of a stack above the end of the walk (if that is a given update frame, above the first frame that shares its updatee): entering the AP_STACK put in its place pushes exactly the original words above and including the frame, each inner update frame pointing to its AP_STACK; the frame's updatee leads to that AP_STACK and the rebuilt words agree with the original ones up to indirections if and only if no update frame at or above it shares its updatee with a deeper one above the end |
| `StackFreezing.FreezeRebuilds` | rts/RaiseAsync.c:782-854 | whatever ends the walk, it freezes exactly the update frames above its end, in order, and the closure for each of them rebuilds the flattened stack down to that frame, from the innermost frame that was left its updatee if there is one |
| `StackFreezing.FreezeSound` | rts/RaiseAsync.c:800-1034 | the walk from any point that satisfies the invariant goes on to freeze exactly the update frames that remain above its end; the frozen frames do not overlap, each closure rebuilds its part of the stack, and each updatee is an indirection to the last closure made for it |
| `StackFreezing.AllFramesFrozen` | rts/RaiseAsync.c:777-1034 | the walk passes over no update frame above its end and freezes no other |
| `StackFreezing.NextKeeps` | rts/RaiseAsync.c:800-1034 | each turn of the loop keeps the invariant: what was stripped so far is rebuilt by the current closure |
| `StackFreezing.RebuildsMore` | rts/Apply.cmm:302-397 | one more AP_STACK (with or without update frame) on a chain that rebuilds some words rebuilds those words followed by its payload and frame |
| `StackFreezing.HandlerGetsException` | rts/RaiseAsync.c:890-940 | an exception is given to the innermost catch frame, wherever in the stack chunks it is: the heap holds the thunk that raises just this exception, the handler is as interruptible as the word after the frame says, and everything from the frame down is the original stack; the thread dies if there is no catch frame or no exception |
| `StackFreezing.EndsAtCatch` | rts/RaiseAsync.c:777-1034 | the walk ends at the innermost catch frame if it has an exception for it, else at the bottom of the stack, past every catch frame |
| `StackFreezing.EndsAtStop` | rts/RaiseAsync.c:777-1034 | a walk that is to stop at a frame ends there |
| `StackFreezing.FrozenAreUpdateFrames` | rts/RaiseAsync.c:777-1034 | the frames frozen are all the update frames above the end of the walk, in order |
| `StackFreezing.FramesAreRead` | includes/rts/storage/Closures.h:157-185 | the frames of a stack over its chunks, read off one after the other by their sizes |
| `StackFreezing.SuspendKeepsBlackHole` | rts/RaiseAsync.c:805-845 | stopping at a given update frame freezes exactly the update frames above it, leaves the rest unchanged, and never updates the closure that this frame is to update |
| `StackFreezing.ApsGrow` | rts/RaiseAsync.c:805-854 | the closures put in place of update frames are all different, in the order of their frames |
| `StackFreezing.NextFlat` | rts/RaiseAsync.c:856-888 | each turn takes a prefix off the stack as flattened over its chunks and never passes a catch frame when there is an exception |
| `StackFreezing.DiffersWhenShared` | rts/RaiseAsync.c:826-842 | if a frame at or above the one in question shares its updatee with a deeper one, the rebuilt stack does differ from the original one |
| `StackFreezing.SharedUpdatee` | rts/RaiseAsync.c:826-842 | two update frames with one updatee: the outer frame's AP_STACK rebuilds a stack that differs from the original one |
| `StackFreezing.Thread.RaiseAsync` | rts/RaiseAsync.c:721-1046 | over the stack memory: given an exception, the words from the innermost catch frame down are left, under a closure to be entered that is the thunk raising that exception, with exceptions masked and interruptible as that frame says; without catch frame or exception the thread is killed and its stack empty; with a frame to stop at the memory from there on, the stack and the flags are as before. The heap is that of the functional walk, and a blocked thread is on the run queue once |
| `StackFreezing.Thread.StripAll` | rts/RaiseAsync.c:721-1046 | the imperative walk ends in exactly the state of the functional walk: heap, stack words, chunks and mask flags |
| `StackFreezing.Thread.StripStack` | rts/RaiseAsync.c:777-1034 | the loop reaches the point where the functional walk ends, and no other |
| `StackFreezing.Thread.FreezeSegment` | rts/RaiseAsync.c:805-826 | the new AP_STACK holds the function and the words up to the frame, in order |
| `StackFreezing.Thread.StripUpdate` | rts/RaiseAsync.c:805-854 | the UPDATE_FRAME case: the segment frozen, its updatee made an indirection unless it is that of the frame to stop at, and the closure left on the stack |
| `StackFreezing.Thread.StripUnderflow` | rts/RaiseAsync.c:856-888 | the UNDERFLOW_FRAME case: the segment frozen without update and the walk continued on the next chunk |
| `StackFreezing.Thread.Deliver` | rts/RaiseAsync.c:898-940 | the CATCH_FRAME case: the handler's frame kept, `raise` applied to the exception on top, exceptions masked as the frame says |
| `StackFreezing.Thread.Prepare` | rts/RaiseAsync.c:767-777 | the walk starts with a closure on top of the stack and whole frames below |
| `StackFreezing.Thread.Conclude` | rts/RaiseAsync.c:890-940 | a stop frame kills the thread, a catch frame gets its exception, the frame to stop at ends the walk with stack and flags unchanged; a blocked thread becomes runnable once |
| `ThrowToState.PutKeeps` | rts/RaiseAsync.c:464-474 | queueing a live message that is in hand keeps the invariant: each queue holds exactly the messages whose place it is, senders wait, nobody is forgotten |
| `ThrowToState.TakeKeeps` | rts/Schedule.c:1002-1006 | taking the first entry off a queue brings the message to hand, or makes its thread the one that has to be woken now |
| `ThrowToState.RevokeKeeps` | rts/RaiseAsync.c:271 | turning a live message into MSG_NULL keeps the invariant except that its sender has to be woken |
| `ThrowToState.WakeupKeeps` | rts/Threads.c:242-255 | sending a wakeup message to the thread's capability settles what is owed to it |
| `ThrowToState.TakeAllKeeps` | rts/Schedule.c:994-1000 | taking a whole inbox at once loses and duplicates no message and no wakeup |
| `ThrowToState.SleepKeeps` | rts/Exception.cmm:311-323 | a sender whose message was queued may go to sleep on it |
| `ThrowToSteps.AnyRun` | rts/RaiseAsync.c:150-561 | in every run from a new system, whatever the sequence of throws, message handling, wakeups, migrations and blocking: a message is on at most one queue, once; a thread blocked in throwTo has its message live on a queue and its exception not raised, or a wakeup on the way; and no exception is raised twice |
| `ThrowToSteps.WhereTheyDiffer` | rts/RaiseAsync.c:393-412 | exactly which threads take an exception from throwToMsg but not from maybePerformBlockedException, or the other way round |
| `ThrowToSteps.SecondExceptionWaits` | rts/RaiseAsync.c:918-925 | once an exception was raised in a thread and caught, a second one does not hit it: it waits on the thread's queue, and the thread goes on with its handler, masked as that says |
| `ThrowToSteps.MaskedTakesNone` | rts/RaiseAsync.c:393-412 | who masks exceptions takes none unless blocked and masking interruptibly |
| `ThrowToSteps.JudgedMeets` | rts/RaiseAsync.c:177-445 | what throwToMsg makes of a target in terms of its fields: dead, elsewhere, taking the exception (then its handler runs masked, or it is killed) or not, and then the message waits where it will be seen |
| `ThrowToSteps.Rts.ThrowToMsg` | rts/RaiseAsync.c:177-445 | BLOCKED only with the message on exactly one queue (inbox of the target's capability, our own inbox, or the target's queue) and SUCCESS with it on none; an exception is raised exactly in a live thread of ours that takes it, which is then alive, masked and as interruptible as its handler says, or killed if it has none; no other message or thread changes but the target and the message it waited for |
| `ThrowToSteps.Rts.ThrowLocal` | rts/RaiseAsync.c:215-442 | each case of the switch on why_blocked raises, queues or retries as the target's masking state and blocked state demand |
| `ThrowToSteps.Rts.ThrowNew` | rts/RaiseAsync.c:150-175 | throwTo from a running thread: raised and over exactly if the target is dead or is on the same capability and takes it, with the target's fields as the handler says, or queued first in the right place with the sender asleep on the locked message; no other thread changes |
| `ThrowToSteps.Rts.RaiseAsync` | rts/RaiseAsync.c:720-1046 | the target is alive, blocked on nothing, masked, and interruptible as its handler says, or it is killed if it has none; it takes no further exception as it is, and this one counts as raised |
| `ThrowToSteps.Rts.TryWakeup` | rts/Threads.c:236-300 | a thread of another capability gets a message; one of ours becomes runnable exactly if it is not in throwTo or a foreign call and its reason is gone, and one in throwTo only when its message is MSG_NULL; nothing else changes |
| `ThrowToSteps.Rts.MigrateThread` | rts/Threads.c:319-328 | the thread belongs to the other capability, whose inbox has its wakeup, and a message to it that is under way will be forwarded |
| `ThrowToSteps.Rts.ThreadStep` | rts/Schedule.c:740-775 | whatever a thread outside throwTo does to itself, a move to another capability included, changes no queue and no message |
| `ThrowToSteps.Rts.SendMessage` | rts/RaiseAsync.c:447-459 | the message becomes the first entry of the inbox |
| `ThrowToSteps.Rts.BlockedThrowTo` | rts/RaiseAsync.c:463-474 | the message becomes the first entry of the target's blocked_exceptions |
| `ThrowToSteps.Rts.BlockFinally` | rts/HeapStackCheck.cmm:652-661 | the sender unlocks its message unless it was revoked meanwhile |
| `ThrowToSteps.Rts.TakeInbox` | rts/Schedule.c:994-1000 | the inbox is emptied into the list to work through |
| `ThrowToSteps.Rts.ExecuteMessage` | rts/Messages.c:65-138 | one entry is dealt with: a live message ends up revoked and off all queues or live on one, a revoked one is dropped, and a locked one changes nothing; an exception is raised only in a live thread of ours that takes it |
| `ThrowToSteps.Rts.ExecuteThrow` | rts/Messages.c:80-113 | a delivered message is revoked and then its sender woken, one that must wait is unlocked and stays queued |
| `ThrowToSteps.Rts.Finish` | rts/Messages.c:101-107 | the message is MSG_NULL and on no queue, and its sender runs or has a wakeup on the way |
| `ThrowToSteps.Rts.AwakenBlocked` | rts/RaiseAsync.c:542-561 | all live messages of the queue are revoked without raising anything, and their senders woken |
| `ThrowToSteps.Rts.PopBlocked` | rts/RaiseAsync.c:549-559 | one round of it: the first message goes, revoked and with its sender seen to |
| `ThrowToSteps.Rts.MaybePerformBlocked` | rts/RaiseAsync.c:493-535 | a thread that can take an exception gets that of the first live message of its queue, whose sender is woken, and the rest of the queue stays; nothing is raised if the thread masks exceptions or no message is live |
| `ThrowToSteps.Rts.PerformHead` | rts/RaiseAsync.c:60-73 | the exception is raised in a live thread, a message that this thread itself waited for is revoked, and the sender is woken |
| `BytecodeMachine.InterruptionsInvisible` | rts/Interpreter.c:227-264 | a run with any number of exits to the scheduler and returns ends where the uninterrupted run from the same start ends, with the same stack and heap |
| `BytecodeMachine.InterruptionsFollow` | rts/Interpreter.c:190-264 | after any number of interruptions the configuration still leads to one on the uninterrupted run |
| `BytecodeMachine.ResumeCatchesUp` | rts/Interpreter.c:227-264 | every exit with ThreadInterpret leaves a stack from which re-entry gets back to the interrupted configuration in at most two steps, or just past it at ENTER |
| `BytecodeMachine.ResumeAtContinuation` | rts/Interpreter.c:728-737 | the exit at the return to a case continuation re-evaluates the returned value and gets back |
| `BytecodeMachine.EndIsUnique` | rts/Interpreter.c:190-264 | an uninterrupted run has one end |
| `BytecodeMachine.LateCheckIsVisible` | rts/Interpreter.c:927-940 | a failing stack check after another instruction is not invisible: re-entry never gets back to it |
| `BytecodeMachine.StepKeepsSane` | rts/Interpreter.c:458-468 | a continuation is entered only with the value and its frame on the stack |
| `BytecodeMachine.ApplyKeepsSpine` | rts/Interpreter.c:552-673 | applying a BCO or a PAP of one to an apply frame with any arguments keeps the same function applied to the same arguments |
| `BytecodeMachine.SpineIsApplied` | rts/Interpreter.c:420-437 | all waiting frames are worked off: the BCO is entered with exactly its arity of arguments, or a PAP has collected every argument there is |
| `BytecodeMachine.VoidIsCounted` | rts/Interpreter.c:420-437 | a void argument counts towards the arity of a function but is not passed to it |
| `BytecodeMachine.UpdatedThunkHasValue` | rts/Interpreter.c:441-456 | after the update a thunk evaluates to the value returned to its update frame |
| `CodeGenerator.JoinedPushesRun` | compiler/ghci/ByteCodeGen.lhs:200-212 | pushes of any atoms after the peephole optimisation, with up to three joined in one instruction, leave the same values in the same order as the single pushes |
| `SwitchTrees.CaseRunsArm` | compiler/ghci/ByteCodeGen.lhs:1251-1340 | for any alternatives, in any order, and any scrutinee in the range: run on a constructor with that tag or on that integer, the switch tree leads to the code of the alternative for it, else to the default, else to CASEFAIL, with stack and heap unchanged |
| `SwitchTrees.TreeSelects` | compiler/ghci/ByteCodeGen.lhs:1262-1302 | the same for the tree wherever it stands in a BCO, by halving the alternatives |
| `SwitchTrees.LessDecides` | rts/Interpreter.c:1203-1242 | TESTLT falls through if and only if the tag or integer is less than its operand, and else jumps to its target |
| `SwitchTrees.EqualDecides` | rts/Interpreter.c:1213-1242 | TESTEQ falls through if and only if it is equal, and else jumps to its target |
| `CodeGenerator.TailCallApplies` | compiler/ghci/ByteCodeGen.lhs:676-729 | the code for a call of any function with any arguments evaluates the function with all its arguments waiting in order, in whatever groups they were pushed, on the stack below the caller's frame |
| `CodeGenerator.ConAppBuilds` | compiler/ghci/ByteCodeGen.lhs:628-653 | the code for a constructor application allocates the constructor with its pointers and then its other fields, each in order, and leaves a pointer to it |
| `CodeGenerator.LetBinds` | compiler/ghci/ByteCodeGen.lhs:388-443 | after the code for a let, recursive or not, each variable bound stands for a closure with its code and with what its captured variables stand for then; all other variables and objects are as before |
| `CodeGenerator.CapturedValues` | compiler/ghci/ByteCodeGen.lhs:277-299 | builder and code of a closure agree on its layout: with payload and arguments on the stack each captured variable stands for what it was captured with, each parameter for its argument |
| `CodeGenerator.ThunkRuns` | compiler/ghci/ByteCodeGen.lhs:277-299 | entering a thunk that a let built runs its code with the captured variables standing for what they stood for, under an update frame for it |
| `CodeGenerator.AltBinds` | compiler/ghci/ByteCodeGen.lhs:747-789 | in an alternative the fields stand for the constructor's fields, the case binder for the value, all others for what they stood for |
| `CodeGenerator.CaseReturns` | compiler/ghci/ByteCodeGen.lhs:738-861 | a constructor returned to a case leads to the right-hand side of its alternative, with its fields unpacked on top of the value and the stack of the case |
| `CodeGenerator.CaseOfConstructor` | compiler/ghci/ByteCodeGen.lhs:738-861 | a case on a constructor application, as compiled, reaches the right-hand side for that constructor with the values of its arguments for the fields |
| `CodeGenerator.LiteralReturns` | compiler/ghci/ByteCodeGen.lhs:345-355 | the code for an integer result leaves it above the caller's frame, under the info word for its return |
| `CodeGenerator.IntegerCaseReturns` | compiler/ghci/ByteCodeGen.lhs:738-861 | an integer returned to a case runs the alternative for it, or the default |
| `InterpretBCO.Interpreter.RunThread` | rts/Interpreter.c:190-264 | the code run with any pattern of failing checks, left to the scheduler and called again any number of times: if it yields in the end, its stack, heap and result are those that the uninterrupted machine reaches from the same start |
| `InterpretBCO.Interpreter.Interpret` | rts/Interpreter.c:190-1515 | one call of the interpreter from entry to exit is a chain of the machine's steps that ends where it yields, or in the stack and heap that the machine leaves when a check fails |
| `InterpretBCO.Interpreter.Label` | rts/Interpreter.c:190-1515 | each label does the machine's step or leaves as the machine does, and falls through its checks only if there is the room they are for |
| `InterpretBCO.ChecksLeaveRoom` | rts/Interpreter.c:319-772 | what the checks are for: after those that pass, a function starts with its reserved words free, and the labels without a check stay within the words reserved for them |
| `InterpretBCO.Interpreter.Enter` | rts/Interpreter.c:227-264 | the three entry cases start where the stack's top word says |
| `InterpretBCO.Interpreter.EvalObj` | rts/Interpreter.c:266-380 | evaluating a closure performs the machine's step, with room for a thunk's payload and update frame, or leaves the stack for an interruption |
| `InterpretBCO.Interpreter.DoReturn` | rts/Interpreter.c:382-506 | returning a value to an apply frame, update frame or continuation is the machine's step, with the stack check of an application passed |
| `InterpretBCO.Interpreter.DoApply` | rts/Interpreter.c:552-682 | do_apply is the machine's application, with room for a PAP's payload, or an interruption that changes only the stack |
| `InterpretBCO.Interpreter.Apply` | rts/Interpreter.c:560-673 | the in-place shuffles and allocations give the stack and heap of the machine's application |
| `InterpretBCO.Interpreter.ApplySurplus` | rts/Interpreter.c:584-604 | shuffling the arguments over the old frame and unpacking the payload leaves payload, arguments, new frame and surplus in this order |
| `InterpretBCO.Interpreter.ApplyExact` | rts/Interpreter.c:605-612 | the frame is dropped and the payload put in front of the arguments |
| `InterpretBCO.Interpreter.ApplyTooFew` | rts/Interpreter.c:613-630 | a new PAP gets the old payload followed by the arguments, which leave the stack |
| `InterpretBCO.Interpreter.Shuffle` | rts/Interpreter.c:591-595 | the overlapping move loses no argument |
| `InterpretBCO.Interpreter.Slide` | rts/Interpreter.c:1077-1087 | the top words are kept in order and the words under them dropped, although the areas overlap |
| `InterpretBCO.Interpreter.DoReturnUnboxed` | rts/Interpreter.c:509-548 | an unboxed return finds its continuation above its own frame |
| `InterpretBCO.Interpreter.RunBcoReturn` | rts/Interpreter.c:728-737 | the heap check before a continuation |
| `InterpretBCO.Interpreter.RunBcoReturnUnboxed` | rts/Interpreter.c:739-747 | the heap check before an unboxed continuation |
| `InterpretBCO.Interpreter.RunBcoFun` | rts/Interpreter.c:749-772 | the heap and stack checks before a function, which leave its reserved words free |
| `InterpretBCO.Interpreter.NextInsn` | rts/Interpreter.c:799-1515 | each instruction modelled is the machine's step, or an interruption at STKCHECK or ENTER; past STKCHECK there is the room it asked for |
| `InterpretBCO.Interpreter.ExecPushLocal` | rts/Interpreter.c:942-967 | PUSH_L, PUSH_LL and PUSH_LLL take their words from the stack as it was |
| `InterpretBCO.Interpreter.ExecAllocate` | rts/Interpreter.c:1089-1201 | ALLOC_AP, ALLOC_PAP and PACK allocate and push |
| `InterpretBCO.Interpreter.ExecFill` | rts/Interpreter.c:1124-1166 | MKAP and MKPAP fill the allocated closure with function and arguments in order |
| `InterpretBCO.Interpreter.ExecBranch` | rts/Interpreter.c:1203-1242 | the constructor and integer tests and jumps are the machine's step; `SwitchTrees` says what those decide |
| `InterpretBCO.Interpreter.ExecLeave` | rts/Interpreter.c:1318-1358 | STKCHECK, ENTER and the returns continue or leave the stack for an interruption |
| `HandOver.StepKeeps` | rts/Capability.c:407-808 | every locked region keeps the invariant, also when tasks become bound or unbound: one holder, queues hold exactly who waits in them, the first returner of a free capability awake, work noticed, spare workers counted and bounded |
| `HandOver.RunKeeps` | rts/Capability.c:407-808 | over all interleavings of any number of tasks |
| `HandOver.ReturnersAreFifo` | rts/Capability.c:186-213 | in every run those queued so far are those served so far followed by those still queued: first come, first served, whoever barges in |
| `HandOver.ServedInOrder` | rts/Capability.c:619-653 | from an idle start the returners served are a prefix of those who queued up |
| `HandOver.NoMessageLost` | rts/Messages.c:40-54 | in every run the messages sent are those taken out by a holder and those still in the inbox |
| `HandOver.HeadAcquires` | rts/Capability.c:631-653 | a hand-over in progress completes: the first returner is woken or awake, and gets the capability on looking |
| `HandOver.ReleaseWakes` | rts/Capability.c:436-507 | releasing leaves no returner and no work unnoticed |
| `HandOver.ReleaseTells` | rts/Capability.c:436-507 | exactly who is told of a released capability: the first returner, the bound thread's task next to run, else the first spare worker or a new one if there is work or the caller insists, else nobody |
| `HandOver.ProdTells` | rts/Capability.c:777-786 | prodding a free capability tells somebody of it, unless a synchronisation is pending or a shutdown leaves no worker |
| `HandOver.ReleaseKeeps` | rts/Capability.c:436-507 | releasing in any of its six ways keeps the invariant |
| `HandOver.YieldRecheckKeeps` | rts/Capability.c:704-737 | a waiting worker or bound task takes the capability only when it is free and its turn |
| `HandOver.YieldQueueKeeps` | rts/Capability.c:526-560 | queueing a worker and releasing keeps the spare list, its count and its bound |
| `CapabilityCode.AnyRun` | rts/Capability.c:186-808 | any run of the code from a new capability on is a run of the protocol: the linked lists are those of its tasks, no assertion about them fails, and returners get the capability in the order in which they queued up |
| `CapabilityCode.Capability.NewReturningTask` | rts/Capability.c:186-198 | linking a task at the tail makes it the last of the queue; its next and that of the old tail are NULL as asserted |
| `CapabilityCode.Capability.ReleaseCapability_` | rts/Capability.c:436-507 | the code releases as the protocol's step does |
| `CapabilityCode.Capability.ReleaseCapabilityAndQueueWorker` | rts/Capability.c:526-560 | the code of a yielding task's release is that event |
| `CapabilityCode.Capability.WaitForReturnCapability` | rts/Capability.c:619-629 | a free capability is taken at once, else the task queues up |
| `CapabilityCode.Capability.RecheckReturn` | rts/Capability.c:640-653 | one look of a returner at the capability is that event, and says whether it was acquired |
| `CapabilityCode.Capability.RecheckYield` | rts/Capability.c:704-737 | one look of a yielded task is that event; the spare list is not empty as asserted |
| `CapabilityCode.Capability.ProdCapability` | rts/Capability.c:777-786 | a free capability is released again so that somebody looks at it |
| `CapabilityCode.Capability.TryGrabCapability` | rts/Capability.c:795-808 | the capability is grabbed exactly if it is free |
| `CapabilityCode.Capability.Send` | rts/Messages.c:24-56 | the message is in the inbox and a free capability is released so that it is seen |
| `CapabilityCode.Capability.PopReturningTask` | rts/Capability.c:200-213 | unlinking the head takes the first task off the queue, with the tail reset when it was the only one, and leaves the spare list as it is |
| `CapabilityCode.Capability.PushSpareWorker` | rts/Capability.c:547-551 | the worker is linked in front of the spare list, which is counted |
| `CapabilityCode.Capability.PopSpareWorker` | rts/Capability.c:727-729 | the first worker unlinks itself; its next is NULL again |
| `Biography.ReportIsBiography` | rts/ProfHeap.c:740-752 | after the prefix sums VOID, LAG, USE and DRAG at census t are exactly the live words never used, used only later, used now or later again, and last used before t; all are non-negative and with INHERENT_USE they are the live words |
| `Biography.EntriesAddUp` | rts/ProfHeap.c:647-663 | the signed entries of eras 1 to t add up to the void and drag words of census t, once everything has died |
| `Biography.FourStates` | rts/ProfHeap.c:740-752 | every live closure is in exactly one state at a census |
| `Biography.VoidEntryBound` | rts/ProfHeap.c:197 | an era's void entry never exceeds the unused words of its census, and is less if and only if some ordinary closure was alive and unused at the census and either older, still alive or used later, or died unused right after it having been born earlier |
| `LagDragVoid.VoidAssertionIsTooStrict` | rts/ProfHeap.c:197 | creating, counting and destroying one unused closure makes the strict assertion fail |
| `LagDragVoid.AssertionExactly` | rts/ProfHeap.c:197 | the assertion holds if and only if some closure leaves slack in that sense |
| `LagDragVoid.RecordCreate` | includes/rts/prof/LDV.h:36-40 | the LDV word has the current era as creation era and the state "created" |
| `LagDragVoid.RecordUse` | compiler/codeGen/CgProf.hs:286-300 | a use keeps the creation era and records the state and the era of the use |
| `LagDragVoid.DeathKeepsCensus` | rts/ProfHeap.c:182-241 | the entries of a death keep every census's record what it should be, for the plain totals and for each identity |
| `LagDragVoid.MissingIsZero` | rts/ProfHeap.c:685-689 | an identity missing from a census has zero running totals there, as the code asserts |
| `LagDragVoid.FinalIsBiography` | rts/ProfHeap.c:732-774 | what is printed from an aggregated census is the biography of the closures, and no count is negative |
| `LagDragVoid.ChosenIsSelected` | rts/ProfHeap.c:755-775 | the counters added up for a selection of states are the words of the live closures that are in one of them |
| `LagDragVoid.SelectionsMean` | rts/ProfHeap.c:755-775 | with one state selected those are the lag, drag, void or use words, with all four the live words but those of inherently used closures |
| `LagDragVoid.HeapProfiler.Create` | includes/rts/prof/LDV.h:36-40 | a new closure starts its life in the current era |
| `LagDragVoid.HeapProfiler.Enter` | compiler/codeGen/CgProf.hs:286-300 | the closure's life records the use, all censuses still right |
| `LagDragVoid.HeapProfiler.RecordDead` | rts/ProfHeap.c:182-241 | exactly the two signed entries of a death, or none if no census lies between; the counters asserted to exist do; the result tells whether the void assertion held |
| `LagDragVoid.HeapProfiler.Destroy` | rts/LdvProfile.c:31-146 | the closure's life ends in this era, with nothing recorded for an inherently used one; the void assertion on the way holds exactly if it is not come by or some closure leaves slack |
| `LagDragVoid.HeapProfiler.HeapProfObject` | rts/ProfHeap.c:831-906 | the words of a live closure are charged to the counter of its state |
| `LagDragVoid.HeapProfiler.CountHeap` | rts/ProfHeap.c:911-1067 | after the walk the census holds the words of the live closures by state |
| `LagDragVoid.HeapProfiler.NextEra` | rts/ProfHeap.c:278-305 | a new era with an empty census, in a larger array if need be; the last era stops the program |
| `LagDragVoid.HeapProfiler.HeapCensus` | rts/ProfHeap.c:1073-1135 | a census and the next era, keeping everything recorded |
| `LagDragVoid.HeapProfiler.CensusForDead` | rts/LdvProfile.c:217-250 | exactly the closures not evacuated die |
| `LagDragVoid.HeapProfiler.AggregateTotals` | rts/ProfHeap.c:633-666 | the totals become running totals, with the assertions on the way |
| `LagDragVoid.HeapProfiler.CarryForward` | rts/ProfHeap.c:679-703 | the running totals so far are added to a census's counters |
| `LagDragVoid.HeapProfiler.AddNewBands` | rts/ProfHeap.c:705-720 | identities seen for the first time join the accumulated ones, each once |
| `LagDragVoid.HeapProfiler.AggregateBands` | rts/ProfHeap.c:668-725 | the same for every identity's counters |
| `LagDragVoid.HeapProfiler.DumpTotals` | rts/ProfHeap.c:740-752 | the five figures printed are the sums of the void, lag, use, inherent and drag words over all lives |
| `LagDragVoid.HeapProfiler.DumpBands` | rts/ProfHeap.c:755-828 | one line for each identity whose live closures in the selected states take any words, with just those words, and no other line |
| `LagDragVoid.HeapProfiler.EndHeapProfiling` | rts/ProfHeap.c:438-480 | for every run of creations, uses, deaths and censuses all reports show the words of the closures in each state, or of each identity in the selected states |
| `RetainerProfile.Engine.ComputeRetainerSet` | rts/RetainerProfile.c:1773-1796 | on every finite heap, cyclic or not: it ends; a closure has a set exactly if it is reachable; every recorded retainer reaches the closure by a path without retainers in between; a set is rs_MANY only if more retainers than the limit do; children are scanned at most maxRetainerSetSize + 1 times. Without recursion and cycles some set is rs_MANY exactly if some closure has more retainers than the limit, and if none has, the sets are exact, roots that are no retainers counting as the system's |
| `RetainerProfile.Engine.RetainClosure` | rts/RetainerProfile.c:1482-1743 | covers everything below the closure, keeps all sets sound and empties the traverse stack down to the boundary |
| `RetainerProfile.Engine.RetainStack` | rts/RetainerProfile.c:1273-1420 | a stack chunk is traversed on a stack of its own, and the traverse stack is afterwards as before |
| `RetainerProfile.Engine.RetainAll` | rts/RetainerProfile.c:1680-1725 | each child is the start of a recursive traversal |
| `RetainerProfile.Engine.Step` | rts/RetainerProfile.c:1500-1743 | each round makes progress: a set grows, or there is less work on the stack |
| `RetainerProfile.Engine.Visit` | rts/RetainerProfile.c:1617-1670 | the closure's field afterwards, and whether its children are to be visited with which retainer |
| `RetainerProfile.Engine.Push` | rts/RetainerProfile.c:432-659 | the first child, and the others on the stack |
| `RetainerProfile.Engine.Pop` | rts/RetainerProfile.c:764-950 | the next child above the boundary, used-up elements dropped |
| `RetainerProfile.Engine.RetainRoot` | rts/RetainerProfile.c:1745-1767 | a root starts with itself or with the system as its retainer |
| `RetainerExactness.ExactSets` | rts/RetainerProfile.c:1621-1670 | at the end the set of a closure is exactly the set of most recent retainers on the paths to it |
| `RetainerExactness.SaturatedMeans` | rts/RetainerSet.c:150-160 | some set is rs_MANY if and only if some closure has more most recent retainers than the limit |
| `RetainerExactness.VisitAddsOne` | rts/RetainerProfile.c:1636-1656 | taking over the parent's set when it has one element more adds exactly the visit's retainer |
| `RetainerExactness.VisitFlows` | rts/RetainerProfile.c:1621-1670 | whatever a visited closure hands on has arrived at its children or is still to come |
| `RetainerExactness.PathArrives` | rts/RetainerProfile.c:1746-1762 | the most recent retainer of every path is in the set of its last closure |
| `RetainerGraph.RetainerFreePath` | rts/RetainerProfile.c:1523-1536 | the most recent retainer of a path is a retainer on it with none after it, or the root's |
| `RetainerInvariants.VisitGrows` | rts/RetainerProfile.c:1727-1739 | a visit that goes on to the children strictly enlarges the closure's set or saturates it |
| `RetainerInvariants.VisitSound` | rts/RetainerProfile.c:1617-1673 | a visit records only retainers of paths to the closure |
| `RetainerInvariants.VisitCrowded` | rts/RetainerProfile.c:1602-1680 | a visit makes a set rs_MANY only if more retainers than the limit are most recent on paths to its closure |
| `RetainerInvariants.VisitCovers` | rts/RetainerProfile.c:1617-1673 | no child of a visited closure is left out |
| `RetainerInvariants.PathsAreVisited` | rts/RetainerProfile.c:1746-1762 | when nothing is left to visit, everything reachable has been visited |
| `RetainerInvariants.PoppedKeeps` | rts/RetainerProfile.c:764-950 | popping takes one pending visit, loses none and touches nothing below the boundary |
| `RetainerInvariants.PushedKeeps` | rts/RetainerProfile.c:432-659 | pushing makes all children pending but the first, which is returned |
| `TraverseStack.Stack.Push` | rts/RetainerProfile.c:620-659 | one element more on the sequence, over any number of blocks, and a recorded boundary stays where it is |
| `TraverseStack.Stack.PopOff` | rts/RetainerProfile.c:720-745 | the last element gone, also over the edge of a block |
| `TraverseStack.Stack.PopOffReal` | rts/RetainerProfile.c:674-718 | the previous block becomes the current one with the elements it had |
| `TraverseStack.Stack.NewStackBlock` | rts/RetainerProfile.c:207-216 | the block becomes the current one, empty |
| `TraverseStack.Stack.ReturnToOldStack` | rts/RetainerProfile.c:222-230 | the block becomes the current one with its saved top |
| `TraverseStack.Stack.MakeRoom` | rts/RetainerProfile.c:620-637 | a full block is left for the next of the chain, used before or new |
| `TraverseStack.Stack.IsEmpty` | rts/RetainerProfile.c:264-268 | stackTop equals stackLimit only when the whole stack is empty |
| `TraverseStack.Stack.IsOnBoundary` | rts/RetainerProfile.c:291-295 | comparing addresses decides whether the depth is that of the boundary |
| `TraverseStack.TopTellsDepth` | rts/RetainerProfile.c:154-181 | different depths have different stack tops, over all blocks |
| `TraverseStack.AddressesDiffer` | rts/RetainerProfile.c:154-181 | no two elements share an address, nor does one have the address of the first block's limit |
| `RetainerSets.RetainerSetTable.AddElement` | rts/RetainerSet.c:140-215 | the object whose elements are those of the set and the new one, the existing one if there is one, or rs_MANY exactly if the set has reached the limit or is rs_MANY; all other objects stay |
| `RetainerSets.RetainerSetTable.Singleton` | rts/RetainerSet.c:106-128 | the one object for a single retainer |
| `RetainerSets.RetainerSetTable.IsMember` | rts/RetainerSet.h:131-158 | linear and binary search decide whether it is one of the elements; rs_MANY has all |
| `RetainerSets.RetainerSetTable.Seek` | rts/RetainerSet.c:168-193 | the search in the chain finds the extended set if it is filed |
| `RetainerSets.RetainerSetTable.File` | rts/RetainerSet.c:195-209 | a new object in its chain with a new id, all others as before |
| `RetainerSets.RetainerSetTable.constructor` | rts/RetainerSet.c:63-73 | an empty table |
| `RetainerSets.Canonical` | rts/RetainerSet.c:140-215 | equal sets are the same object, and ids tell objects apart |
| `RetainerSets.OrderIsIrrelevant` | rts/RetainerSet.c:140-215 | below the limit, adding two retainers in either order leads to the same object |
| `RetainerSets.KeyAdds` | rts/RetainerSet.h:180-195 | the key of a set is the key of the smaller one plus the element, modulo the word size, in whatever order elements came |
| `RetainerSets.InsertKeeps` | rts/RetainerSet.c:195-209 | inserting at the found place keeps the order and adds one element |
| `CostCentreStacks.Profiling.PushCostCentre` | rts/Profiling.c:502-569 | the result is the stack for s with c on top or, if c is on s already, for s cut off after it, whether remembered or made |
| `CostCentreStacks.Profiling.CheckLoop` | rts/Profiling.c:571-580 | the nearest stack on the way up with the cost centre on top |
| `CostCentreStacks.Profiling.ActualPush` | rts/Profiling.c:582-629 | a new stack for the longer sequence, the tree still one |
| `CostCentreStacks.Profiling.IsInIndexTable` | rts/Profiling.c:631-645 | the stack remembered for the cost centre, if any |
| `CostCentreStacks.Profiling.EnterFunCCS` | rts/Profiling.c:356-402 | `++>` for a function stack not directly under MAIN: the suffix after the longest common prefix is pushed oldest first, or with another root the whole function stack above its CAF |
| `CostCentreStacks.Profiling.EnterFunSameRoot` | rts/Profiling.c:381-402 | the three cases by depth all give the operator's result |
| `CostCentreStacks.Profiling.EnterFunCurShorter` | rts/Profiling.c:344-354 | the deeper part of the function stack is pushed on top of the result for the rest |
| `CostCentreStacks.Profiling.EnterFunEqualStacks` | rts/Profiling.c:325-341 | comparing pointers finds the longest common prefix |
| `CostCentreStacks.Profiling.AppendCCS` | rts/Profiling.c:483-496 | all cost centres above the CAF are pushed in order |
| `CostCentreStacks.Profiling.constructor` | rts/Profiling.c:167-222 | the predefined stacks are children of MAIN and their own roots |
| `StackTree.SameStackSameObject` | rts/Profiling.c:502-569 | two stacks with equal sequences are the same object |
| `StackTree.BranchHasOneRoot` | rts/Profiling.c:593-629 | all stacks of a branch below MAIN have the same root |
| `StackTree.PushKeepsNoRepeats` | rts/Profiling.c:509-531 | no cost centre is ever repeated on a stack |
| `StackTree.CommonIsLongest` | rts/Profiling.c:325-341 | the common prefix used above is the longest one |
| `StackTree.EnteredIsAppend` | rts/Profiling.c:303-321 | `++>` gives the documented `ccs ++ dropCommonPrefix ccs ccsfn` if and only if none of the cost centres left of the function's stack is on the current one |
| `StackTree.OperatorByExample` | rts/Profiling.c:314-320 | the five documented examples, and one where nothing is appended |
| `StackTree.AppendedIsPushed` | rts/Profiling.c:483-496 | what appendCCS does is pushing all of the function stack above its CAF root |
| `StackTree.AboveCafIsSuffix` | rts/Profiling.c:483-496 | that is the suffix after the last CAF cost centre |
| `StackTree.EarlyReturnAgrees` | rts/Profiling.c:365-368 | when the early return for a stack directly under MAIN gives the operator's result: if and only if its cost centre is the first below MAIN or on top of the current stack |
| `CostCentreStacks.NodeAdded` | rts/Profiling.c:593-629 | a new child keeps the tree and its memo tables in agreement |
| `CostCentreStacks.EntryAdded` | rts/Profiling.c:647-660 | a new memo entry, back edges included, keeps the tables right |
| `CostCentreStacks.DifferentRoots` | rts/Profiling.c:373-379 | a current stack with another root is no prefix of the function's stack unless it is MAIN |
| `CostReport.Report.ReportCCSProfiling` | rts/Profiling.c:826-871 | each cost centre is charged with the costs of the stacks that have it on top, the total with those of all stacks not ignored, each stack inherits those of the stacks below it with no ignored one between; no cost is lost, and MAIN inherits the total exactly if no reported stack with costs is below an ignored one |
| `CostReport.Report.AggregateCCCosts` | rts/Profiling.c:703-716 | each cost centre gets the costs of exactly its stacks below the given one |
| `CostReport.Report.CountTickss` | rts/Profiling.c:951-964 | the totals grow by the costs of all reported stacks below, also of those below ignored ones |
| `CostReport.Report.InheritCosts` | rts/Profiling.c:968-987 | every stack below gets what it inherits, ignored ones and those below them nothing |
| `CostReport.VisitedOnce` | rts/Profiling.c:951-987 | walking the forward entries from a stack visits each stack below it exactly once |
| `CostReport.WalkIsTotal` | rts/Profiling.c:951-964 | from MAIN the walk adds up the costs of all stacks |
| `CostReport.WalkAddsUp` | rts/Profiling.c:951-964 | from any stack the walk adds up the costs of exactly the stacks below |
| `CostReport.CentreIsCharged` | rts/Profiling.c:703-716 | the walk charges a cost centre with the stacks that have it on top |
| `CostReport.TotalIsCharged` | rts/Profiling.c:951-964 | the total is that of the stacks that are not ignored |
| `CostReport.SettledIsVisible` | rts/Profiling.c:968-987 | what a stack inherits is what the stacks below it cost that have no ignored stack at or above them |
| `CostReport.InheritedIsShown` | rts/Profiling.c:968-987 | what a stack inherits are the costs of the stacks below it that are not hidden by an ignored one |
| `CostReport.MainInheritsTheTotal` | rts/Profiling.c:951-987 | MAIN's inherited costs never exceed the reported total, and equal it if and only if nothing with costs is hidden |
| `CostReport.CCsAddUp` | rts/Profiling.c:703-716 | the cost centres' totals add up to the total of all stacks |
| `PruneTree.Pruner.PruneCCSTree` | rts/Profiling.c:993-1018 | the pass over the linked tables leaves exactly the pruned tables, and says whether the stack stays |
| `PruneTree.PruningKeepsSums` | rts/Profiling.c:993-1018 | pruning changes no sum of costs, and what goes sums to zero |
| `PruneTree.CostlyStacksStay` | rts/Profiling.c:989-1018 | every stack with entries, ticks or allocation is still reached, once |
| `PruneTree.PrunedIsDownward` | rts/Profiling.c:993-1018 | the pruned tables are still a tree, and every child left was kept |
| `PruneTree.EntriesLeft` | rts/Profiling.c:998-1018 | exactly which entries a table is left with: an entry shares the fate of the next child at or behind it in the list, and stays if there is none |
| `PruneTree.KeptExactly` | rts/Profiling.c:993-1018 | unless all are to be printed, a stack is kept if and only if at or below it there is one with costs or with a back edge as the oldest entry of its table |
| `PruneTree.AllStay` | rts/Profiling.c:989-1011 | when all cost centres are to be printed, pruning changes nothing |
| `PruneTree.CostlessStackStays` | rts/Profiling.c:998-1007 | a tree without any costs that is kept whole for the sake of one back edge |
| `Masks.MaskIsMod` | rts/Hash.c:60-73 | masking with a power of two less one is taking the remainder |
| `Masks.MaskedHash` | rts/Hash.c:78-100 | also for the negative hash values that strings can have |
| `Masks.GrowthMovesOneBucket` | rts/Hash.c:133-187 | growing by a bucket moves keys only from the split bucket to the new one, also when the size doubles |
| `Masks.BucketInRange` | rts/Hash.c:60-100 | the bucket of a key is always one in use |
| `Masks.SameHash` | rts/Hash.c:102-112 | exactly equal words, and strings with the same characters wherever they are, compare equal, and then their hashes are equal |
| `Masks.HashIsBase128` | rts/Hash.c:85-89 | the hash of a string is congruent, modulo the prime, to the number to base 128 that its characters make up |
| `LinearHash.SplitKeepsFiled` | rts/Hash.c:133-187 | splitting keeps every pair in the bucket where the enlarged table looks for it |
| `LinearHash.DividedOk` | rts/Hash.c:133-187 | a split touches two buckets, and every bucket in use has a slot that was set |
| `LinearHash.SizesGrow` | rts/Hash.c:162-168 | max stays a power of two with masks max - 1 and 2 max - 1, and bcount == max + split is at most 2^20 |
| `LinearHash.StoredDivided` | rts/Hash.c:170-186 | a split moves cells between chains and leaves the free list alone |
| `LinearHash.NewChunk` | rts/Hash.c:215-236 | a new chunk adds its cells to the free list, each once |
| `HashTable.Table.Insert` | rts/Hash.c:245-272 | the table holds one pair more; shape, load below 5 per bucket and storage are kept |
| `HashTable.Table.Remove` | rts/Hash.c:274-303 | for a word a pair with just that word goes, for a string one whose key has the same characters at whatever address, of those with the data asked for, and its data are returned; or there is none and nothing changes |
| `HashTable.Table.Lookup` | rts/Hash.c:189-207 | for a word the data of a pair with just that word, for a string those of a pair whose key has the same characters at whatever address; NULL exactly when there is none |
| `HashTable.Table.Expand` | rts/Hash.c:133-187 | one bucket more until the directory is full, the contents unchanged |
| `HashTable.Table.Part` | rts/Hash.c:170-182 | the chain is divided into the cells that stay and those that move |
| `HashTable.Table.GrowSizes` | rts/Hash.c:162-168 | split and max advance, with a wrap that doubles max |
| `HashTable.Table.HashWord` | rts/Hash.c:60-73 | the bucket by the word without its lowest three bits |
| `HashTable.Table.HashStr` | rts/Hash.c:78-100 | the bucket by the string's hash |
| `HashTable.Table.AllocHashList` | rts/Hash.c:215-236 | a cell that was free, from the list or a new chunk |
| `HashTable.Table.FreeHashList` | rts/Hash.c:238-243 | the cell is free again |
| `HashTable.Table.FreeHashTable` | rts/Hash.c:311-343 | each pair's data are visited exactly once, each segment is freed, and every cell, in use or not, with exactly one chunk |
| `HashTable.Table.constructor` | rts/Hash.c:350-375 | an empty table of one segment |
| `HashTable.ChainOfKey` | rts/Hash.c:189-207 | the chain of a key's bucket has all pairs with that key |
| `HashTable.AllVisited` | rts/Hash.c:311-343 | visiting all buckets visits exactly the pairs of the table |
| `TixFormat.RoundTrip` | rts/Hpc.c:68-361 | for every list of modules reading the written file gives back names, hashes, counts and ticks in order (an absent array as zeros) if and only if no name contains a quote and all fit the 256-byte buffer |
| `TixFormat.ModulesOfText` | rts/Hpc.c:119-178 | the same for the list of modules, whatever follows it |
| `TixFormat.NameOfText` | rts/Hpc.c:82-95 | a quoted name is read back exactly if it is readable, else it is lost |
| `TixFormat.WordOfDigits` | rts/Hpc.c:97-104 | a printed 64-bit number is read back as itself |
| `TixFormat.WrittenExample` | rts/Hpc.c:314-361 | the text for two modules, character by character |
| `TixFormat.TicksOfText` | rts/Hpc.c:142-151 | a printed list of tick counts is read back |
| `TixFormat.ReadIsStorable` | rts/Hpc.c:106-178 | whatever file is accepted, what was read fits its fields and has readable names |
| `TixFormat.ReadWriteRead` | rts/Hpc.c:106-361 | writing what was read from any accepted file and reading it again gives the same modules |
| `TixFile.WriteTix` | rts/Hpc.c:314-361 | the loops print exactly the text of the modules |
| `TixFile.Reader.ReadTix` | rts/Hpc.c:106-180 | the parser's result on any file, parse errors and buffer overruns included |
| `TixFile.Reader.ReadModules` | rts/Hpc.c:119-178 | its loop over the modules |
| `TixFile.Reader.ReadModule` | rts/Hpc.c:119-152 | one module |
| `TixFile.Reader.ReadTicks` | rts/Hpc.c:142-151 | the tick counts of a module |
| `TixFile.Reader.ExpectString` | rts/Hpc.c:82-95 | a quoted string up to a NUL, or an overrun of the buffer |
| `TixFile.Reader.Fill` | rts/Hpc.c:85-89 | its loop stops at the first quote, inside the buffer or not |
| `TixFile.Reader.ExpectWord64` | rts/Hpc.c:97-104 | the digits ahead, modulo 2^64 |
| `TixFile.Reader.Expect` | rts/Hpc.c:68-74 | one character or a parse error |
| `TixFile.Reader.Ws` | rts/Hpc.c:76-80 | blanks are skipped |
| `TixFile.WriteThenRead` | rts/Hpc.c:314-361 | a written file read again: the modules come back exactly if all names are readable |

## Left out

- Operating system locks, condition variables and threads: each region under a lock is one atomic step,
  worker creation is a step of the environment. Weak memory ordering is not modelled.
- Capabilities: task migration between capabilities, `moreCapabilities`, the shutdown sweep over dead
  workers, sparks and the run queue's own operations; one capability at a time.
- `raiseAsync`: STM frames, profiling headers, and copying return values in `threadStackUnderflow`;
  memory allocation never fails.
- `throwTo` messages: what an MVar operation or a black hole does to its own queues, STM's own state, the
  interruption of a worker in a foreign call, and `MSG_BLACKHOLE` messages. Operations on a locked
  closure that spin are steps that have not happened yet. Which of two messages has the lower address is
  left open.
- Bytecode interpreter: foreign calls, floating-point and word tests, SWIZZLE, ALLOC_AP_NOUPD (which
  differs from ALLOC_AP in the info pointer only), breakpoints, garbage collection at an exit, and code
  compiled to machine code, at which the machine stops. Instructions are decoded already. When the
  heap, the stack or the context switch flag makes a check fail is left open.
- `BytecodeMachine.ApplyKeepsSpine`: leaves out the frame for a void argument, which adds none to the
  spine; `BytecodeMachine.VoidIsCounted` is about that.
- Bytecode compiler: the schemes for calls, constructor applications, `let`, closures, `case` on
  constructors and on integers, and integer results, for pointers and integers of one word. Not foreign
  calls, primitive operations, unboxed tuples, breakpoints, other literals and wider words, the linking
  of names, stack bitmaps, and the printing of code. Only `CodeGenerator.JoinedPushesRun` is about code
  after the peephole optimisation. Labels are resolved. That alternatives differ and
  variables bound together have different names is Core's.
- `CodeGenerator.ConAppBuilds`: says nothing of constructors without fields, for which the shared closure
  is pushed.
- `InterpretBCO.Interpreter.Interpret`: takes from the compiler (`InterpretBCO.Compiled`) that code
  keeps to the room its stack check asked for, that functions have parameters, and that no assertion of the
  interpreter fails. It makes a bounded number of steps, because a program may run for ever.
- `StackFreezing.RoundTrip`: where the walk stops at an update frame, says nothing of frames from the first
  on that shares its updatee, because the code throws away what was above that;
  `StackFreezing.FreezeRebuilds` says what is rebuilt then.
- Lag/drag/void: `long` counters are unbounded; the selection of closures is a flag of each closure;
  walking blocks, pinned objects and partly filled arrays; the heap's own layout. The 64-bit LDV word
  only.
- Retainer profiling: SRT bitmaps, TREC_CHUNK, IND_STATIC, the flip bit in each closure's field, and the
  layout of closures; a heap is a graph whose closures say how their children are visited. The module
  `RetainerProfile` uses a sequence for the traverse stack, which `TraverseStack` refines, and sets for
  the objects of `RetainerSets`.
- Retainer sets: ids are unbounded; statistics and printing.
- Cost-centre stacks: the concurrent path of `pushCostCentre`, `EMPTY_STACK`, and the renaming of cost
  centres. Stacks are numbered objects in the order of their creation. The allocation charged to
  profiling itself.
- `StackTree.EarlyReturnAgrees`: says nothing of deeper function stacks, for which `enterFunCCS` gives the
  operator's result.
- Cost report: sorting cost centres by ticks, percentages and printing; counters are unbounded.
- Hash tables: `long`-sized counters; that callers who remove a pair by its data know it to be there;
  strings are sequences of characters without the closing zero. (That the memory of a segment is unset
  until written is modelled.)
- `readTix`: merging the modules read with those registered (the code tests the wrong pointer at
  rts/Hpc.c:154). A tick count of 2^31 or more is taken to survive the conversion to `int` and back.
- Linker, adjustors, garbage collector, STM, I/O managers, event log, and everything that only prints.

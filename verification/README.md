# A verified model of the Tya checker, emitter and runtime

Tya is a small language: a checker and a C emitter written in Go, a task runner, and a C
runtime with a garbage collector, cooperative tasks, channels, dictionaries, UTF-8 strings,
lazy sequences and hash functions.  This project models the parts of it whose correctness
does not show in any one function, and proves what they promise for all inputs, all runs and
all reachable states.

`dafny verify dfyconfig.toml` checks everything.  The modules, in reading order:

- `Basics`, `Arith`, `Graph`, `Buffers`: lists, arithmetic of remainders and 64-bit words,
  finite graphs with reachability (`ReachIsPaths`: reachable is having a path) and cycles,
  filling fixed buffers.
- `Heap`, `RootFrames`, `RootSet`, `Loads`, `Collector`: memory, the frames that hold the roots,
  what the program can get at, access by access, and mark and sweep.
- `Dictionary`: the insertion-ordered dictionary and its hash index.
- `TaskQueues`, `Scheduler`, `Await`, `ChannelProtocol`, `Channel`: the ready queue and the
  sleep list, awaiting, and channels, first as a step system and then as the ring buffer and
  linked queues that implement it.
- `SuperCalls`, `InterfaceOrder`, `InterfaceRequirements`, `ClassWalks`: where the checker and
  the emitter must agree about interfaces and classes.
- `Runes`, `Utf8`, `Text`, `DigestBuffer`, `RejectionSampling`: strings and bytes.
- `Sequences`, `TaskGraph`, `DeepEqual`: lazy iterators, the task runner, equality of values.

## How the model reads the program

- An address maps to the object stored there, and to nothing once it is freed, so a dangling
  pointer is an address without an object.  Objects, tasks and frames are records in maps;
  pointers are references or NULL.
- Code that changes things in place is modelled by methods that do the same updates in the
  same order on the fields, maps, arrays or records concerned, each proved against a
  specification; what the program promises is then proved of the specification.
- A loop that ends by a C-string terminator ends at the length of the text here, except in
  `Utf8.DecodeFirst`, which reads the memory up to the terminator.
- Time, entropy, the hash of a key, the block transforms, the outcome of a task's commands
  and the functions passed to sequences are parameters.  What is proved holds for all of them.
- `hash & mask` is computed bit by bit on unbounded numbers; a dictionary keeps its capacity a
  power of two, and `WrapAround` shows that the 64-bit wrap-around of the sum does not matter.
- A task switch is one step between two other steps.

## What the proofs found

Some promises hold only under a condition.  Each of the following is stated with its exact
condition and with an input that does not meet it.

- `channel.receive_timeout` takes a value without waking a blocked sender, and a main-thread
  `channel.send` that had to wait does not look for a waiting receiver again
  (`runtime/tya_runtime_task_sync.c:408-412`, `:274-300`).  Two things can go wrong.  A channel
  is out of order when a receiver waits although a value is there, or a sender although there
  is room: `StepExact` says which steps lead there, and `ResumedSendPassesReceiver` is a run
  that does.  First in, first out then fails when a later value is let in while a sender with
  another value is blocked: `FifoExact` and `FifoRunExact` give the condition for a step and
  for whole runs, and in `TimeoutReceiveOvertakes` a later value overtakes an earlier one.
- A task's link for awaiting is both the head of its own list and its place in another's.
  `AwaitExact` gives the exact condition under which awaiting wakes the right tasks;
  `EarlyWakeupHappens` and `LostWakeupHappens` are two states in which it does not.
- The collector does not look at a task's pending value, so a value handed to a receiver that
  has not run yet can be freed (`PendingValueIsFreed`).  `PendingExact`: it is safe exactly
  when following the pending values as well would keep no further object.
- A class method that calls super, in a class without a parent class, reaches the interface
  defaults, but the checker passes over names the class declares.  `DeclaredExact`: every call
  along the chain has a target exactly when some interface has a default of the name and the
  first such does not call super; `DeclaredUnlinked` and `DeclaredWithoutDefault` fail either way.
- The scan by which the checker knows that an interface default calls super looks at top-level
  expression, assignment and return statements only (`internal/checker/checker.go:3637-3702`).
  `HiddenUnlinked`: a default that calls super inside an if, with no earlier default of its
  name, is accepted and its super link is empty.  `AcceptedMeansLinked` gives the exact
  condition: no link is missing exactly when the checker accepts and every call its scan misses,
  in a default that the class does not declare itself, has an earlier default of the name.
- A `break` or `continue` out of a `try` does not pop the handler
  (`internal/codegen/stmt.go:219-222`).  After a `break` and a return the handler remembers a
  frame that is gone, and the next raise unwinds without end (`BreakOutOfTry`); after a
  `continue` the same handler is pushed again, its `prev` is itself, and the chain that the
  collector walks has no end (`ContinueInTry`).  The exact conditions: unwinding gives the stack
  of the push iff that stack is still a part of the current one (`UnwindExact`), and never ends
  iff the frame sought is not on the current stack (`UnwindEnds`); leaving a frame keeps every
  handler's stack current iff the innermost handler was not pushed in it (`OrderlyLeaves`);
  pushing a handler leaves a chain that ends iff the handler is not in it yet (`PushExact`).
- `tya_chr(0)` gives an empty text, which `tya_utf8_decode_first` answers with -1
  (`runtime/tya_runtime_core.c:1468`).  `DecodeOfWritten`: every other scalar value, and only
  those, is decoded from what was written for it.
- Deep equality looks object members up with a function that only accepts dictionaries, so
  an object with members is not even equal to itself (`ObjectUnlikeItself`); `ReflexiveExact`
  says for which values it is reflexive.
- `tya_split` with an empty separator gives bytes: these are the runes exactly when every byte
  is a rune by itself (`CharsAreRunes`, `CharsCutRune`).

The comment on `tya_gc_maybe_collect` speaks of allocations since the last collection; the
code compares the number of live objects with the threshold, and so does the model.

## Model

| member | source | states |
|---|---|---|
| Heap.EdgesAgree | runtime/tya_runtime_core.c:665-731 | what the marker follows from an object depends only on the object and on the links and waiting values of queued tasks |
| Heap.RestrictOk | runtime/tya_runtime_core.c:830-847 | dropping everything outside a set closed under the marker's references leaves no dangling reference |
| Loads.EdgesAreLoads | runtime/tya_runtime_core.c:665-767 | what the marker follows from an object is exactly what the program can load from it, by one access for each field and an error's causes |
| Loads.NothingDangles | runtime/tya_runtime_core.c:665-731 | the memory is in order iff no such access leads to freed memory |
| Loads.RootsAreGiven | runtime/tya_runtime_net.c:494-514 | what marking starts from is exactly what a global, a root or protected value of any frame, a handler of the current task or the list of live tasks refers to |
| Loads.SurvivorsAreHeld | runtime/tya_runtime_net.c:492-514 | what is kept is exactly what a chain of loads from a root leads to |
| Collector.MarkedIsReach | runtime/tya_runtime_core.c:665-731 | a marking from clear marks that blackens what it adds marks exactly the objects reachable from where it started |
| Collector.Collector.MarkHeader | runtime/tya_runtime_core.c:665-731 | recursive marking ends on cyclic memory, marks what is reachable and nothing else, and leaves only finished objects behind |
| Collector.Collector.MarkValue | runtime/tya_runtime_core.c:733-767 | every reference of a value, through chains of error causes, is marked |
| Collector.Collector.MarkChannel | runtime/tya_runtime_core.c:707-723 | the occupied part of the ring, all waiting tasks and the values of waiting senders are marked |
| Collector.Collector.MarkFrames | runtime/tya_runtime_net.c:498-505 | walking the global frame list marks the roots and protected values of all frames of all tasks |
| Collector.Collector.MarkRaises | runtime/tya_runtime_net.c:507-509 | walking the current task's handlers marks the values they carry |
| Collector.Collector.MarkRoots | runtime/tya_runtime_net.c:494-514 | after the mark phase the marked objects are exactly those that a chain of loads from a root leads to |
| Collector.Sweep | runtime/tya_runtime_core.c:830-847 | the list keeps the marked objects in their order with clear marks, the rest is freed, and the counters say how many objects and bytes |
| Collector.Collector.Alloc | runtime/tya_runtime_core.c:554-570 | a new object goes in front, is accounted for, and nothing dangles |
| Collector.Collector.Collect | runtime/tya_runtime_net.c:492-525 | an object survives iff a chain of loads from a root leads to it, and no load from a survivor leads to freed memory; survivors are unchanged and in order, marks are clear, the accounts balance |
| Collector.Collector.MaybeCollect | runtime/tya_runtime_net.c:527-538 | a collection happens iff the number of live objects has reached the threshold; otherwise memory and counters are unchanged |
| Collector.PendingValueKeepsNothing | runtime/tya_runtime_core.c:697-706 | no survivor depends on a task's pending value |
| Collector.PendingValueIsFreed | runtime/tya_runtime_core.c:697-706 | a concrete memory in which a handed-over value is freed |
| Collector.PendingExact | runtime/tya_runtime_core.c:697-706 | no survivor's pending value is freed iff following pending values too would keep nothing more |
| RootFrames.ListIsUnionOfStacks | runtime/tya_runtime_core.c:583-611 | the global frame list holds each frame of each task's stack once and nothing else; the stacks are disjoint |
| RootFrames.RootTable.Enter | runtime/tya_runtime_core.c:583-597 | entering puts the frame in front of the global list and on top of the current task's stack |
| RootFrames.RootTable.Leave | runtime/tya_runtime_core.c:599-611 | leaving takes the frame out of the middle of the list and off the stack, whatever handlers remain; all other frames keep their order and contents, and every handler's stack stays current iff the innermost was not pushed in this frame |
| RootFrames.RootTable.Unwind | runtime/tya_runtime_core.c:656-660 | for any target: the loop ends iff the target is NULL or on the stack, removes exactly the frames above it from the list, and keeps the rest |
| RootFrames.UnwindExact | runtime/tya_runtime_core.c:656-660 | unwinding to a handler's frame gives the stack of its push iff that stack is a part of the current one |
| RootFrames.UnwindEnds | runtime/tya_runtime_core.c:656-660 | the loop never ends iff the target is a frame that is not on the stack |
| RootFrames.OrderlyLeaves | internal/codegen/stmt.go:219-222 | leaving a function keeps every handler's stack current iff its own handlers were popped |
| RootFrames.PushExact | runtime/tya_runtime_io.c:697-702 | after a push the chain of handlers ends iff the handler was not in it |
| RootFrames.RootTable.PushRaise | runtime/tya_runtime_io.c:697-702 | a handler remembers the stack at its push, and no other handler, frame or variable changes; the chain of handlers ends iff the handler was not in it |
| RootFrames.BreakOutOfTry | internal/codegen/stmt.go:219-220 | a handler left behind by a break, then a return: the next raise never ends |
| RootFrames.ContinueInTry | internal/codegen/stmt.go:221-222 | a handler pushed again after a continue: the chain of handlers never ends |
| RootFrames.RootTable.PopRaise | runtime/tya_runtime_io.c:704-708 | popping drops the innermost handler, or nothing |
| RootFrames.RootTable.Raise | runtime/tya_runtime_io.c:717-730 | nil or no handler ends the program; otherwise only the innermost handler's value changes, and the jump is reached with the stack of its push iff that stack is a part of the current one; it is never reached iff the handler's frame is gone |
| RootFrames.RootTable.SwitchTo | runtime/tya_runtime_net.c:670-686 | a switch installs another task's frame and handler stacks and loses none |
| RootFrames.RootTable.AddFiber | runtime/tya_runtime_task_sync.c:123-124 | a new task starts without frames and handlers |
| Dictionary.FindIsScan | runtime/tya_runtime_core.c:209-221 | for every hash function the probing lookup answers what a linear scan answers |
| Dictionary.ProbePresent | runtime/tya_runtime_core.c:209-221 | probing for a stored key arrives at its slot |
| Dictionary.ProbeAbsent | runtime/tya_runtime_core.c:209-221 | probing for a missing key arrives at an unused slot, since the load never fills the index |
| Dictionary.IndexInsert | runtime/tya_runtime_core.c:288-292 | filling that slot indexes the new entry and disturbs no other |
| Dictionary.MapCap | runtime/tya_runtime_core.c:113-119 | the index capacity is the least power of two from 8 on that is twice the count |
| Dictionary.WrapAround | runtime/tya_runtime_core.c:214-214 | the masked 64-bit sum of hash and probe is the probe sequence modulo the capacity, for every power of two up to 2^64 |
| Arith.MaskIsMod | runtime/tya_runtime_core.c:212-214 | masking with a power of two less one is the remainder |
| Dictionary.HashDict.Rebuild | runtime/tya_runtime_core.c:223-246 | a rebuilt index finds every entry |
| Dictionary.HashDict.Find | runtime/tya_runtime_core.c:248-256 | the position found is that of the linear scan, whether or not the index existed |
| Dictionary.HashDict.Set | runtime/tya_runtime_core.c:268-293 | a set replaces the value in place or appends, and keeps the index valid |
| Dictionary.HashDict.Delete | runtime/tya_runtime_core.c:295-305 | a delete removes exactly that entry and keeps the order of the rest |
| Dictionary.HashDict.Lookup | runtime/tya_runtime_core.c:1259-1266 | the scan of tya_index answers like the index |
| Dictionary.RunIsMap | runtime/tya_runtime_core.c:268-305 | after any run of sets and deletes keys are unique and lookups answer as in the finite map the run means |
| Dictionary.OrderKept | runtime/tya_runtime_core.c:268-305 | no operation reorders surviving entries; a new key goes last |
| Dictionary.ValueAfterPut | runtime/tya_runtime_core.c:268-293 | a set changes the value of its key and of no other |
| Dictionary.ValueAfterDrop | runtime/tya_runtime_core.c:295-305 | a delete removes the value of its key and of no other |
| Scheduler.Scheduler.Enqueue | runtime/tya_runtime_net.c:591-602 | the ready queue stays duplicate-free and matches the flags; finished and queued tasks are left alone |
| Scheduler.Scheduler.Dequeue | runtime/tya_runtime_net.c:604-613 | exactly the due sleepers, the front of the sleep list, join behind the ready tasks, and the head is taken: first in, first out, and nobody else is lost |
| Scheduler.Scheduler.SleepUntil | runtime/tya_runtime_net.c:615-631 | the task goes behind everyone who wakes no later, so the list stays sorted with ties in order |
| Scheduler.Scheduler.WakeSleepers | runtime/tya_runtime_net.c:633-642 | the sleepers that wake by now, the front of the sleep list, move to the end of the ready queue in order; those left wake later |
| Scheduler.Scheduler.JoinRound | runtime/tya_runtime_net.c:688-703 | the join loop is left only with the task done or both lists empty, and naps exactly until the first sleeper is due; no task leaves the two lists |
| Scheduler.TurnComes | runtime/tya_runtime_net.c:591-613 | no starvation: whatever joins or wakes in between, a ready task is taken after as many dequeues as tasks stand in front of it, and one more |
| Scheduler.NobodyDue | runtime/tya_runtime_net.c:635-635 | on a sorted list nobody behind a task that is not due is due |
| Scheduler.DueIsFront | runtime/tya_runtime_net.c:633-642 | the due tasks of a sorted list are its front, and the others, in order, the rest |
| Scheduler.DueMovedKeeps | runtime/tya_runtime_net.c:633-642 | waking loses and adds nobody |
| Scheduler.InsertLinks | runtime/tya_runtime_net.c:625-630 | linking behind the place the walk finds is the sorted insertion |
| Scheduler.InsertSorted | runtime/tya_runtime_net.c:615-631 | the insertion keeps the list sorted and adds exactly the task |
| Scheduler.InsertPlace | runtime/tya_runtime_net.c:615-631 | the task comes behind everyone who wakes no later and before everyone who wakes later |
| Await.Finish | runtime/tya_runtime_net.c:705-725 | a finishing task wakes everyone on its list, in order |
| Await.AwaitKeeps | runtime/tya_runtime_task_sync.c:176-183 | an await between tasks on one side of an await each keeps every list right |
| Await.FinishKeeps | runtime/tya_runtime_net.c:705-725 | in a good state the end of a task wakes exactly those who await it |
| Await.EarlyWakeup | runtime/tya_runtime_task_sync.c:179-181 | if the awaited task itself awaits, somebody else's end wakes the awaiting task too early |
| Await.LostWakeup | runtime/tya_runtime_task_sync.c:179-181 | if the awaiting task has awaiters, they are never woken |
| Await.EarlyWakeupHappens | runtime/tya_runtime_task_sync.c:179-181 | a state in which the end of one task wakes an awaiter of another |
| Await.LostWakeupHappens | runtime/tya_runtime_task_sync.c:179-181 | a state after which an awaiter is never woken |
| Await.AwaitExact | runtime/tya_runtime_task_sync.c:174-184 | wake-ups are right in every later order of completions iff neither is the case or the await closes a cycle |
| Await.AwaitSplices | runtime/tya_runtime_task_sync.c:179-181 | awaiting a listed task splices the awaiting task into that list |
| ChannelProtocol.StepExact | runtime/tya_runtime_task_sync.c:260-427 | a step keeps blocked receivers on an empty and blocked senders on a full buffer iff it passes nobody over |
| ChannelProtocol.StepKeeps | runtime/tya_runtime_task_sync.c:249-343 | such a step also keeps first in, first out |
| ChannelProtocol.RunKeeps | runtime/tya_runtime_task_sync.c:229-614 | over every run in order: sent = delivered, then buffered, then held by blocked senders, then dropped by a close |
| ChannelProtocol.TaskRun | runtime/tya_runtime_task_sync.c:229-343 | runs of task-issued steps are always in order; on an open channel nothing is lost |
| ChannelProtocol.CloseAccounts | runtime/tya_runtime_task_sync.c:592-614 | after a close everything that arrived is delivered, buffered, or dropped with a failed sender, and nobody waits |
| ChannelProtocol.FifoExact | runtime/tya_runtime_task_sync.c:260-427 | a step keeps first in, first out iff it lets no value in past a blocked sender that holds a different one |
| ChannelProtocol.FifoRunExact | runtime/tya_runtime_task_sync.c:229-614 | a run of any steps is first in, first out throughout iff none of its steps does |
| ChannelProtocol.ClosedDrains | runtime/tya_runtime_task_sync.c:331-342 | a closed channel delivers what it had buffered, in order |
| ChannelProtocol.TimeoutReceiveOvertakes | runtime/tya_runtime_task_sync.c:404-412 | a run in which 1 and 3 are delivered before 2 |
| ChannelProtocol.ResumedSendPassesReceiver | runtime/tya_runtime_task_sync.c:274-300 | a run in which a value is buffered while a receiver stays blocked |
| Channel.WaiterPush | runtime/tya_runtime_task_sync.c:229-238 | walking to the tail and linking appends to the queue |
| Channel.RingChannel.TaskSend | runtime/tya_runtime_task_sync.c:260-304 | a task's send is the protocol's: hand over, block, fail or buffer; of the tasks only the receiver changes, or the blocked sender and the link of the one queued before it |
| Channel.RingChannel.TaskReceive | runtime/tya_runtime_task_sync.c:306-343 | a task's receive is the protocol's: block, end, or take the oldest; the senders whose values move up leave the front of their queue, in order, and become ready without failure; no other task changes |
| Channel.ParkedElsewhere | runtime/tya_runtime_task_sync.c:229-238 | a task that starts to wait leaves every queue of other tasks as it was |
| Channel.RingChannel.WakeOneSender | runtime/tya_runtime_task_sync.c:249-258 | blocked senders' values fill the free places; exactly their senders leave the front of the queue, in order, and become ready, neither waiting nor failed |
| Channel.WokenWereFirst | runtime/tya_runtime_task_sync.c:249-258 | the tasks woken, followed by the senders left, are the senders there were |
| Channel.RingChannel.TrySend | runtime/tya_runtime_task_sync.c:522-552 | a select round for a send is a step of the protocol; a receiver gets the value and becomes ready, or nobody is touched |
| Channel.RingChannel.TryReceive | runtime/tya_runtime_task_sync.c:494-519 | a select round for a receive is a step of the protocol; whoever leaves the front of the sender queue becomes ready, in order, and no other task changes |
| Channel.RingChannel.TimedReceive | runtime/tya_runtime_task_sync.c:404-415 | a timed receive takes the oldest value and touches no task |
| Channel.RingChannel.MainSendResumed | runtime/tya_runtime_task_sync.c:292-303 | a resumed main-thread send appends without looking for a receiver, and touches no task |
| Channel.RingChannel.CloseChannel | runtime/tya_runtime_task_sync.c:592-614 | waiting receivers get nil, waiting senders fail, all become ready in order |
| Channel.CloseFailsHolders | runtime/tya_runtime_task_sync.c:601-609 | the tasks whose send a close fails are exactly those that hold the dropped values |
| Channel.RingChannel.PushBack | runtime/tya_runtime_task_sync.c:297-299 | the ring gains the value at its end |
| Channel.RingChannel.PopFront | runtime/tya_runtime_task_sync.c:335-338 | the ring loses its oldest value |
| Channel.RingIndex | runtime/tya_runtime_task_sync.c:297-297 | the remainder is one wrap-around |
| InterfaceOrder.OrderStable | internal/checker/checker.go:3420-3437 | without cycles the checker's order does not depend on its stack and lists exactly the interfaces above |
| InterfaceOrder.OrderAppend | internal/checker/checker.go:3420-3437 | what is named first is laid out first |
| InterfaceOrder.OrderOne | internal/checker/checker.go:3420-3437 | an interface is laid out behind its parents, in the order in which it names them |
| InterfaceOrder.Visit | internal/codegen/class.go:442-457 | the emitter's walk appends the checker's order with first occurrences kept |
| InterfaceOrder.EffectiveInterfaces | internal/codegen/class.go:439-461 | on acyclic interfaces the emitter's list is the checker's order without repeats |
| InterfaceOrder.LinearisationIsExact | internal/codegen/class.go:439-461 | that list has each interface above the named ones once, parents before children |
| InterfaceOrder.CheckSupers | internal/checker/checker.go:3300-3311 | the loop accepts iff each default whose super call the scan sees, and that is not overridden, follows another of its name |
| SuperCalls.ScanIsCall | internal/checker/checker.go:3637-3702 | what the scan flags does call super |
| SuperCalls.ScanExact | internal/checker/checker.go:3637-3702 | the scan flags a function iff super is called in the part that it enters, and that part is everything iff the body is flat |
| SuperCalls.FlatScan | internal/checker/checker.go:3637-3702 | on bodies of expression, assignment and return statements without nested functions, strings, spawn, await or control flow the scan is right |
| SuperCalls.ScanMissesIf | internal/checker/checker.go:3681-3700 | a call of super inside an if is not seen |
| InterfaceOrder.MetFresh | internal/checker/checker.go:3300-3311 | repeats in the order do not change the verdict |
| InterfaceOrder.MetSplit | internal/checker/checker.go:3300-3311 | all super calls have an earlier default iff those that the scan sees and those that it misses have |
| InterfaceOrder.ChainIsComplete | internal/codegen/class.go:543-559 | the super chain runs through every earlier default of the name, once, in reverse order |
| InterfaceOrder.WithDefaultExact | internal/codegen/class.go:543-559 | the interfaces along a chain are those with a default of the name, in layout order |
| InterfaceOrder.TableExact | internal/codegen/class.go:504-530 | methods are emitted for exactly the names of which some interface above has a default |
| InterfaceOrder.EmitMethods | internal/codegen/class.go:504-530 | an object's method is the last default of its name, linked to all earlier ones |
| InterfaceOrder.AcceptedMeansLinked | internal/checker/checker.go:3300-3311 | no emitted super link is missing iff the checker accepts and the calls that its scan misses have an earlier default too |
| InterfaceOrder.HiddenUnlinked | internal/codegen/expr.go:574-576 | an accepted class with a default whose super call, inside an if, has an empty link |
| InterfaceOrder.LoneDefault | internal/checker/checker.go:3300-3306 | a lone default is refused iff the scan sees it call super |
| InterfaceOrder.LoneSuperRefused | internal/checker/checker.go:3300-3306 | a lone default that only calls super is refused |
| InterfaceOrder.Compile | internal/codegen/class.go:504-530 | for an accepted class the emitted chains run through all defaults of their names, and every super call has a target iff those that the scan misses have an earlier default |
| InterfaceOrder.DeclaredExact | internal/codegen/class.go:589-604 | the super chain of a class's own method is there and whole iff some interface has a default of the name and the first in layout order does not call super |
| InterfaceOrder.DeclaredWithoutDefault | internal/checker/checker.go:1780-1791 | an accepted class whose own method calls super with nothing to call |
| InterfaceOrder.DeclaredUnlinked | internal/checker/checker.go:3304-3304 | an accepted class whose own method reaches an empty super link |
| InterfaceRequirements.Effective | internal/checker/checker.go:3508-3548 | the walk ends on every graph; it succeeds iff all interfaces above are known, off cycles and agree on arities, and then returns exactly the declared methods; each error names a real culprit |
| InterfaceRequirements.RequirementsExact | internal/checker/checker.go:3508-3548 | a method is required with an arity iff some interface above declares it so without a body |
| InterfaceRequirements.AgreeExact | internal/checker/checker.go:3537-3544 | interfaces agree iff no method is declared without a body with two arities |
| InterfaceRequirements.Gather | internal/checker/checker.go:3252-3280 | a class may name its interfaces iff they are known, distinct, acyclic and agree with each other and with the parent class |
| InterfaceRequirements.CheckAndCompile | internal/checker/checker.go:3252-3311 | checking then emitting, on any declarations: what passes has no cycle, and every super call of an emitted default has a target iff those that the scan misses have an earlier default |
| ClassWalks.HasInheritanceCycle | internal/checker/checker.go:2502-2513 | the loop answers whether the parent walk comes back to a class |
| ClassWalks.EffectiveAbstractRequirements | internal/checker/checker.go:3611-3635 | the root-first fold holds exactly the methods left open, each with the arity the leaf-first walk finds, for instance and class methods |
| ClassWalks.InheritedAbstractArity | internal/checker/checker.go:3073-3105 | the leaf-first walk returns the arity of the nearest open declaration, or nothing iff no declaration is left open |
| ClassWalks.LineageExact | internal/checker/checker.go:3073-3105 | the tables walked are those of the class and its ancestors, one parent at a time, up to a class without a parent |
| ClassWalks.RequiredExact | internal/checker/checker.go:3073-3105 | a method is required with an arity iff some class declares it abstract with it, none at or below implements it and none below declares it |
| ClassWalks.CheckAbstract | internal/checker/checker.go:3234-3250 | a class that is not abstract passes iff it leaves no method open |
| Utf8.FirstOfEncode | runtime/tya_runtime_core.c:1499-1524 | reading inverts writing for every scalar value, whatever follows |
| Utf8.EncodeOfFirst | runtime/tya_runtime_core.c:1330-1371 | the bytes the validator accepts for one rune are its encoding and no other |
| Utf8.CodepointRoundTrip | runtime/tya_runtime_core.c:1330-1524 | exactly the scalar values have an encoding, and the validator reads it back |
| Utf8.Utf8IsLawful | runtime/tya_runtime_core.c:1330-1371 | UTF-8 obeys the laws under which the text functions are proved |
| Utf8.Examples | runtime/tya_runtime_core.c:1499-1524 | the examples of RFC 3629 are encoded as there |
| Utf8.ValidBytes | runtime/tya_runtime_core.c:1330-1371 | the loop accepts iff the bytes can be cut into runes |
| Utf8.Accepts | runtime/tya_runtime_core.c:1330-1371 | the validator accepts iff the bytes are a concatenation of encoded scalar values |
| Utf8.DecodeFirst | runtime/tya_runtime_core.c:1467-1497 | on memory with a terminator: what the lead byte and the tails before the terminator spell; -1 iff the text is empty, its lead byte is bad or a tail is missing |
| Utf8.DecodedExact | runtime/tya_runtime_core.c:1467-1497 | the decoded number is the validator's code point iff it is a scalar value whose encoding the text begins with |
| Utf8.DecodeOfWritten | runtime/tya_runtime_core.c:1467-1524 | decoding inverts the encoding iff the scalar value is not U+0000, which decodes to nothing |
| Runes.ValidIsWritten | runtime/tya_runtime_core.c:1330-1371 | valid texts are the written code points, each in one way |
| Runes.StringLen | runtime/tya_runtime_core.c:1303-1328 | the length of a valid text is its number of code points |
| Runes.ByteOffsetAt | runtime/tya_runtime_core.c:1410-1438 | both paths give the offset of the rune, before which exactly the code points in front of it are written, or -1 |
| Runes.RuneIndexAtByte | runtime/tya_runtime_core.c:1440-1465 | both paths give the number of runes that begin before the byte |
| Runes.IndexCounts | runtime/tya_runtime_core.c:1440-1465 | a rune begins before the byte iff its number is below the index |
| Runes.SliceSpells | runtime/tya_runtime_collections.c:513-535 | the bytes between two runes are the written code points between them |
| Runes.MatchIsCodes | runtime/tya_runtime_collections.c:412-435 | a needle matches at a rune iff its code points stand there |
| Runes.CharAt | runtime/tya_runtime_core.c:1373-1408 | both paths give bytes that spell exactly the code point with this number, or nothing |
| Runes.AsciiOffsets | runtime/tya_runtime_core.c:1414-1417 | in an ASCII text rune and byte numbers are the same |
| Runes.OffsetAndIndexInvert | runtime/tya_runtime_core.c:1410-1465 | the two numberings invert each other, at a byte iff a rune begins there |
| Runes.FoundAtRune | runtime/tya_runtime_collections.c:430-434 | a valid non-empty needle is only ever found where a rune begins |
| Runes.IndexOf | runtime/tya_runtime_collections.c:412-435 | the answer is the first rune from the start at which the needle's runes match, or -1 |
| Runes.Slice | runtime/tya_runtime_collections.c:513-535 | the bytes that spell exactly the code points from the first index up to the second; a panic iff the indexes are out of order or range |
| Runes.FindAndSlice | runtime/tya_runtime_collections.c:412-535 | slicing from where a needle is found, as many runes as it has, gives it back |
| Text.Split | runtime/tya_runtime_collections.c:1025-1047 | the scan cuts at the leftmost occurrences |
| Text.JoinOfParts | runtime/tya_runtime_collections.c:1025-1097 | joining what splitting gave restores the text |
| Text.PartsAreFree | runtime/tya_runtime_collections.c:1025-1047 | no part contains the separator |
| Text.CharsAreRunes | runtime/tya_runtime_collections.c:1049-1060 | the pieces at an empty separator are the runes of a valid text iff no byte is a tail |
| Text.CharsCutRune | runtime/tya_runtime_collections.c:1049-1060 | a text of one rune that comes out in two pieces |
| Text.JoinOfChars | runtime/tya_runtime_collections.c:1049-1097 | joining the single bytes at nothing restores the text |
| Text.PartsOfJoin | runtime/tya_runtime_collections.c:1025-1097 | splitting what was joined gives the parts back iff each separator is the first occurrence behind its part |
| Text.JoinAll | runtime/tya_runtime_collections.c:1062-1097 | the two passes fill exactly the joined text |
| Text.Replace | runtime/tya_runtime_collections.c:473-504 | replacing is splitting at the old text and joining with the new |
| Text.Fill | runtime/tya_runtime_collections.c:490-502 | the second pass writes exactly the computed length and never past the buffer |
| Text.SizeIsExact | runtime/tya_runtime_collections.c:488-489 | the wrapping size computation is right whenever the result fits, also when the text shrinks |
| DigestBuffer.BlocksAppend | runtime/tya_runtime_crypto_bytes.c:98-113 | hashing a message in pieces is hashing it whole, for any split |
| DigestBuffer.BlocksFold | runtime/tya_runtime_crypto_bytes.c:98-113 | the state is the transform applied once to each whole block, in order |
| DigestBuffer.Absorb | runtime/tya_runtime_crypto_bytes.c:98-113 | an update folds the transform over the whole blocks and keeps the rest, within the buffer |
| DigestBuffer.Finish | runtime/tya_runtime_crypto_bytes.c:115-127 | the final function folds the transform over the padded rest, in one block or two |
| DigestBuffer.PaddedIsWhole | runtime/tya_runtime_crypto_bytes.c:193-204 | the padding is the shortest that ends on a block |
| DigestBuffer.PaddedBytes | runtime/tya_runtime_crypto_bytes.c:115-127 | byte by byte, the padded message is the message, 0x80, zeros and the length |
| DigestBuffer.LittleEndianValue | runtime/tya_runtime_crypto_bytes.c:124-126 | the length bytes of MD5 spell the length |
| DigestBuffer.BigEndianValue | runtime/tya_runtime_crypto_bytes.c:202-204 | the length bytes of the SHA functions spell the length |
| DigestBuffer.Digest64.Update | runtime/tya_runtime_crypto_bytes.c:176-191 | the context stands for the message so far, with its bit count modulo 2^64 |
| DigestBuffer.Digest64.Final | runtime/tya_runtime_crypto_bytes.c:288-300 | the digest state is the transform folded over the padded message |
| DigestBuffer.CarryIsExact | runtime/tya_runtime_crypto_bytes.c:391-396 | the two words of the count are eight times the bytes modulo 2^128 |
| DigestBuffer.Digest128.Update | runtime/tya_runtime_crypto_bytes.c:389-408 | the same for blocks of 128 bytes |
| DigestBuffer.Digest128.Final | runtime/tya_runtime_crypto_bytes.c:410-426 | the digest state is the transform folded over the message padded with its 128-bit length |
| RejectionSampling.Uniform | runtime/tya_runtime_crypto_bytes.c:600-611 | every value of the range is chosen by the same number of accepted draws, (2^64 - threshold) / range |
| RejectionSampling.AcceptedIsWhole | runtime/tya_runtime_crypto_bytes.c:600-601 | the accepted words are a whole number of ranges |
| RejectionSampling.ChosenIs | runtime/tya_runtime_crypto_bytes.c:609-609 | the wrapping sum read as a signed number is the least value plus the remainder |
| RejectionSampling.RandomInt | runtime/tya_runtime_crypto_bytes.c:589-612 | the loop answers from the first word that reaches the threshold |
| Sequences.Iter.HasNext | runtime/tya_runtime_collections.c:311-351 | looking ahead tells whether something remains and delivers nothing |
| Sequences.Iter.Next | runtime/tya_runtime_collections.c:353-392 | the next item is the first of what remains; an exhausted iterator raises |
| Sequences.Iterate | runtime/tya_runtime_compiler_regex.c:653-659 | the iterator of every nesting delivers the eager list |
| Sequences.ToArray | runtime/tya_runtime_compiler_regex.c:706-714 | to_a gives the eager list |
| Sequences.Reduce | runtime/tya_runtime_compiler_regex.c:664-672 | reduce folds the eager list from the left |
| Sequences.Find | runtime/tya_runtime_compiler_regex.c:697-705 | find gives the first item that satisfies the predicate |
| Sequences.MapArray | runtime/tya_runtime_io.c:439-448 | the eager map agrees with the lazy one |
| Sequences.FilterArray | runtime/tya_runtime_io.c:450-462 | the eager filter agrees with the lazy one |
| Sequences.ReduceArray | runtime/tya_runtime_io.c:511-520 | the eager reduce agrees with the lazy one |
| Sequences.DrainTake | runtime/tya_runtime_collections.c:331-336 | a take pulls as many items as it delivers, at most its limit |
| Sequences.TakeAndDrop | runtime/tya_runtime_collections.c:278-292 | taking and dropping split the list |
| Sequences.FromIs | runtime/tya_runtime_collections.c:325-327 | an array is delivered from its index on |
| Sequences.MapIs | runtime/tya_runtime_io.c:439-448 | mapping gives the image of each item at its place |
| Sequences.FilterIs | runtime/tya_runtime_io.c:450-462 | filtering gives exactly the items that satisfy the predicate, in their order |
| Sequences.FoldIs | runtime/tya_runtime_io.c:511-520 | a fold applies the function once to each item, from the left |
| TaskGraph.Visit | cmd/tya/task.go:134-159 | the three-colour walk succeeds iff the reachable tasks are defined and off cycles and the way here is not met again |
| TaskGraph.Validate | cmd/tya/task.go:130-161 | the check succeeds iff everything reachable is defined and acyclic; a reported cycle is one, a reported unknown task is one |
| TaskGraph.RunWithDeps | cmd/tya/task.go:86-106 | a run starts each task at most once, after everything it needs succeeded, follows the plan in the order of the manifest, and stops at its first failure |
| TaskGraph.Run | cmd/tya/task.go:81-106 | a checked run ends; it starts the tasks of the plan up to its first failure and reports that one; it succeeds iff all reachable tasks do, and then started exactly those, the selected one last |
| TaskGraph.PlanAppend | cmd/tya/task.go:91-96 | everything for a dependency is planned before anything for the ones listed after it |
| TaskGraph.LogIsClosed | cmd/tya/task.go:86-106 | whatever a started task needs was started and succeeded |
| DeepEqual.DeepEqualIsMeaning | runtime/tya_runtime_collections.c:760-815 | without objects, deep equality is equality of trees with finite maps |
| DeepEqual.ArraysExact | runtime/tya_runtime_collections.c:774-786 | arrays are deeply equal iff their lengths are equal and the items at every place are |
| DeepEqual.DictsExact | runtime/tya_runtime_collections.c:787-808 | dictionaries without objects are deeply equal iff they have the same keys with equal values |
| DeepEqual.Equivalence | runtime/tya_runtime_collections.c:760-815 | so it is reflexive, symmetric and transitive |
| DeepEqual.OrderInsensitive | runtime/tya_runtime_collections.c:786-808 | the order of a dictionary's entries does not matter |
| DeepEqual.ReflexiveExact | runtime/tya_runtime_collections.c:786-808 | a value equals itself iff it holds no object with members |
| DeepEqual.ObjectUnlikeItself | runtime/tya_runtime_collections.c:800-802 | an object with a member is not deeply equal to itself |
| DeepEqual.EqualIsDeep | runtime/tya_runtime_collections.c:660-706 | the == operator agrees with deep equality outside objects |
| DeepEqual.EqualIsMeaning | runtime/tya_runtime_collections.c:660-706 | so outside objects it holds iff the values mean the same |
| DeepEqual.DataEqualIsMeaning | runtime/tya_runtime_collections.c:712-758 | data objects are equal iff their type names and visible fields are |

## Left out

- Sockets, TLS, files, processes, clocks, entropy, compression, regular expressions, the wasm runtime and the command line: foreign calls or shallow branches.
- Mutexes, condition variables, `swapcontext` and `setjmp`: a switch and a jump are single steps.
- `malloc` and `free` of strings and buffers, growth of entry arrays, failure of allocation, and the caches keyed by a string's address.
- Overflow of the C `int` capacities, indexes, counts and lengths: they are unbounded here, except where the code itself computes in wrapping words.
- `tya_gc_protect` and `tya_gc_clear_protected`: a frame's protected values are part of the model and are roots, but no operation changes them.
- Handlers of tasks that are not running: as in the program, the collector does not take their values as roots.
- Hash round functions and the output of the state words: each block transform is any function of a state and a block.
- Floating point: numbers are exact, and there is no NaN.
- Symbol resolution: the checker and the emitter share one map of interfaces; the module and package prefixes are not part of this model.
- Interface fields, initializers and the checks for conflicting defaults: `Gather` and `CheckSupers` model the requirement and the super checks of checkInterfaceImplementations only.
- Entries without a key and null arrays, which the dictionary and array functions never make.
- Await.Finish: the ready queue that the woken tasks join is the scheduler's and is not repeated there.
- Scheduler.Scheduler.Enqueue: the task must not be asleep, since only running tasks and blocked tasks are enqueued and neither is on the sleep list.
- RootFrames.RootTable.Leave: the frame is the top of the current stack, or NULL; emitted functions enter their frame first and leave it last.
- RootFrames.RootTable.PushRaise: the handler is not in another task's chain, since it lies in an activation of the running task. After a push that closes a cycle no stack of handlers stands for the chain, and the model ends there.
- RootFrames.RootTable.Raise: a handler whose function has returned is still read and written as if its memory were intact.
- Scheduler.Scheduler.SleepUntil: the task must be neither queued nor asleep, since only the running task puts itself to sleep.
- InterfaceRequirements.Gather: conflicting defaults and conflicting fields, which the same function also refuses, are not part of the verdict.
- InterfaceRequirements.CheckAndCompile: the same two checks are not part of its verdict.
- RejectionSampling.RandomInt: for a range of exactly 2^63 the negation of the signed range is undefined in C too; the model takes it to wrap. Bounds whose difference does not fit a signed word are excluded, because the subtraction is undefined in C; the result is an exact integer rather than a double.
- Sequences.Iter.Next: the functions passed in are pure and do not change the sequence they run over; the arrays are fixed while they are iterated.
- Text.Replace: the result must fit the address space.
- Text.JoinAll: the items are strings; the conversion of other values is not part of this model.
- TaskGraph.RunWithDeps: the kinds of task, the shell and its environment are one outcome for each task.
- DeepEqual.EqualIsDeep: objects that are not data objects are compared by identity and are outside the claim.

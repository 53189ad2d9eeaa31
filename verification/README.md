# A verified model of the Neko virtual machine

Neko is a small virtual machine with a bytecode verifier, an interpreter, a JIT built on LLVM and a standard library
written in C. This project states in Dafny what its most intricate parts do and proves it. `dafny verify
dfyconfig.toml` checks everything.

## What is modelled

**Bytecode.** `Opcodes` holds the opcode numbers and the two static tables. `Loader` unpacks a module's code, links
it and checks it; `StackCheck` is the depth-first stack check with its mark array, as the function `Walked` of code
and marks and as the methods that compute it in place. `CodePacking` writes code down from the file format alone and
shows that unpacking is its inverse, for every input; `FileMeaning` says in a file's own terms what the linker
accepts and what an instruction then does. `FrameMachine` is one frame of the interpreter loop and `FrameSafety`
proves that accepted code keeps to its frame. A call is one step that pops its arguments; what a data operation
yields, whether it throws and which trap the code it ran leaves behind come with the step, as an `Event`.

`FrameStorage` says what a frame's words are: what is pushed or set is read back after any run above it, arguments
are handed over in order, a trap gives back the stack that it was set on. `MachineAgreement` shows that the
interpreter that the slot compiler is compared with is the same one: on a function laid out as cells both take the
same steps.

The stack check knows heights only, not which words are trap records. `FrameSafety.Labels` says for each cell which
records are live there, and `Protected` is a condition on code, marks and labels that can be checked before anything
runs: records are neither overwritten nor popped other than by `EndTrap`, a frame leaves with none, and jumps and
handlers agree. Protected code keeps to its marks in every run and gives back the trap it was entered with.
`TrapLabels` shows that the labelled marks are an invariant of the interpreter if and only if they protect the code,
and that code without traps needs nothing beyond the stack check. `TrapWitnesses` has three functions that the walk
accepts, each with a run from its entry that shows what goes wrong without labels: a handler checked at another
height, an overwritten record, a trap left behind; and one that is protected and refused, because its second trap is
looked at after its handler has been walked. That the code a step runs outside its frame gives the trap back
(`GivesBack`) is a premise of `RunSafe`; `Activations` discharges it for every tree of calls between protected
functions, tail calls (of native code, too) and exceptions included, and leaves it to native code alone.

Unpacking an instruction whose parameter falls on the sentinel cell is the result `Overrun`: `UnpackedIff` says
when, and nothing is claimed about what follows, as the writes are then past what the loader allocated for the code
proper.

**The stack.** `VmStack` is the one array with call information at its start and operands at its end, operation by
operation as a class; `TrapChain` says what runs between setting a trap up and processing it, steps that find no
room included. A failed reservation leaves `sp` inside the call stack, and `ProcessTrap` then erases words of it:
`Hurt` is the state with those words erased, `RestoredIff` says when it is the state of before, and `OverflowHurts`
is a run in which it is not. `val_callEx` calls `setjmp` before it sets its trap up, so that without room for the
record it processes the trap of its caller (`FailedSetupLosesTrap`). A native frame pointer whose lowest bit is set
is lost by the tagging (`OddNativeFrameIsLost`). `VmRun` ties the two together: on an object of the class every run
of protected code, overflows included, goes through the states that `TrapChain` is about.

**The slot compiler.** `BlockSplit` cuts a function into blocks, `SlotCode` gives the two machines, `SlotCompiler`
the symbolic stack and the compilation queue, `SlotSimulation` the simulation. Compiled code is assignments to slots
and the accumulator, not LLVM. `MakeFunction` makes exactly what the rounds of the queue make, every block the
translation of its instructions; the simulation holds of the result if and only if every edge into a block carries
the slots that reached it first. The code once asserted this and no longer does; `UnequalStacksMiscompile` shows
what `MakeFunction` makes of a function with unequal slots. `SlotOrigins` turns the condition into one on the code
alone: the slots agree if and only if the operands of every block were pushed by the same instructions whichever way
control comes to it. `SlotAgreement` shows that it holds where every block leaves the operand stack balanced.
`SlotOperators` says what the comparisons and tests return, as interpreted and as compiled, in numbers. Both
machines start with the same accumulator; the compiled one's is in fact uninitialised.

**Serialization.** `SerialFormat` is the format: what the writer produces and what the reader makes of any bytes.
`SerialReach` defines by paths what a value reaches and proves that the writer numbers exactly that.
`SerialRoundTrip` proves that reading back what was written rebuilds an isomorphic heap, and that it does so if and
only if no object reached has a field whose id is 0 (the id of the empty name). `SerialDepth` says exactly when the
writer succeeds, on every heap: where the way that it takes is nowhere more than 350 values deep. `SerialBytes`
gives the bytes of each kind of value. An object with a field `__serialize` makes the writer fail: functions are not
among the values modelled, and any other value of that field is an invalid method. `SerialWriter` and `SerialReader`
are the buffers, the reference tree and the tables as the library updates them, proved against the format. A heap is
a sequence of nodes and an address is an index; every heap begins with the two shared constants, the empty string
and the empty array.

**Concurrency.** `FieldIntern` is the double-checked interning of field names, one atomic step at a time, under
every interleaving. `val_field_name` searches without the lock and does not search again: `NameAnswers` gives its
result in every run, `NameMissesIff` says when it misses an id that is bound, and `NameCanMiss` is a run in which it
misses one that `val_id` has returned. `Deque` is the linked message queue and `WaitQueue` the threads waiting on it
or on a counting lock.

**Data structures and algorithms.** `ObjTable` (object tables), `FieldLookup` (the prototype chain), `HashTable`
(chained tables with masking), `MemSize` (each node counted once), `ValHash` (hash keys) and `HashTrace` (what they
depend on), `DebugTable` (the compressed position table) and `DebugWriter` (the compiler's writer for it),
`BaseCodec` (encoding in 2^n letters), `Stats` (merge sort and merging of duplicates). `Digest` is the streaming
part of MD5 and SHA-1 over any compression function; the padding is that of sections 3.1 and 3.2 of RFC 1321 and of
section 5.1.1 of FIPS 180-4. SHA-1 counts bits in two `unsigned long`s whose carry is lost where these have 64 bits;
both widths are modelled, and `CountedIff` says when the length written is right. `Xml` is the event-driven XML
parser, and `XmlRoundTrip` proves that what is written out is read back if and only if no attribute's field id
stands for another name: the parser interns attribute names and raises where two collide. What ids stand for is a
parameter (`Xml.Names`), the name that each is bound to for ever once it has been interned, by whichever thread
(`FieldIntern.Interned`); `RoundTripIff` draws the consequence for a parser that interns alone. `Bits`,
`MachineInt`, `AddressSet` and `RefTree` are shared.

## Model

| member | source | states |
|---|---|---|
| StackCheck.CheckStack | vm/module.c:134-218 | The check ends on all linked code, with traps or without; it accepts exactly when the walk does and leaves its marks, every one of which belongs to an instruction that passes its tests |
| StackCheck.WalkedOk | vm/module.c:134-218 | Whatever the walk marks, from any marks and in its own order, passes the tests, branches and fall-through included, and no height drops below the floor |
| StackCheck.WalkedForeseen | vm/module.c:134-218 | On trap-free code the walk accepts, from any marks, whenever a consistent assignment of heights foresees the visit, and marks what it assigns |
| StackCheck.CheckFresh | vm/module.c:134-218 | On unmarked code the check accepts exactly when the walk does; on code without a `Trap` instruction that is if and only if some consistent assignment of heights gives the first cell its height |
| StackCheck.CheckCases | vm/module.c:176-183 | Each case of a jump table is a `Jump` that has been visited at the table's height |
| StackCheck.MarkingLowersCount | vm/module.c:138-145 | Marking lowers the number of UNKNOWN marks, which bounds the walk |
| StackCheck.CasesAreStarts | vm/module.c:172-183 | The entries of a jump table are instruction starts as long as those before them are jumps, and so is the default branch |
| StackCheck.AddedOkThen | vm/module.c:161-171 | Two stretches of the walk make one: nothing marked in the first is disturbed by the second |
| Loader.Unpack | vm/module.c:418-451 | On every input both arrays hold what unpacking it yields (`CodePacking.UnpackedIff`), ended by `Last`; exhausted input is `Truncated`, a parameter past the end is `Overrun` |
| Loader.UnpackingShaped | vm/module.c:421-448 | Starts alternate: after a start comes a parameter or another start, never two parameters |
| CodePacking.UnpackedIff | vm/module.c:421-448 | On every input, unpacking completes if and only if the input starts with instructions, each in one of the four encodings with its parameter low byte first, that fill the cells announced; it yields exactly their opcodes and parameters, with a flag for each opcode; it overruns if and only if the parameter of the last one crosses the end |
| CodePacking.PackedBack | vm/module.c:61-84 | Packed code is unpacked into what was packed, whatever follows it, 32-bit parameters of either sign included |
| CodePacking.CompiledBack | src/neko/Bytecode.nml:351-362 | Whatever instructions the compiler writes, each in the shortest encoding for its parameter, are unpacked into their opcodes and parameters |
| Loader.LinkCode | vm/module.c:457-537 | The loop accepts exactly the code whose every instruction passes its tests, whatever was rewritten before it, and leaves linked code behind |
| Loader.AcceptedIsOk | vm/module.c:457-537 | The loop's unsigned tests imply what verification needs: targets are starts, counts are in range |
| FileMeaning.AcceptedExactly | vm/module.c:457-537 | The tests on unsigned words let exactly these signed parameters through: which opcodes take one, which cells a jump may reach, how many arguments, words and entries there may be, in numbers |
| FileMeaning.TablesAsDeclared | vm/opcodes.h:95-233 | The parameter table and the stack table, by opcode number |
| FileMeaning.ThrowersAsCoded | vm/interp.c:647-1091 | Which opcodes raise exceptions and which run other code, by number |
| FileMeaning.JumpMeans | vm/module.c:468-476 | A jump of the file, once linked, takes the interpreter as many cells on as its parameter says, when its condition holds, and a trap records the handler there |
| FileMeaning.JumpTableMeans | vm/interp.c:1084-1088 | A jump table of the file, once linked, takes it to the entry that the accumulator selects, two cells each, or behind the last one |
| FileMeaning.AccessMeans | vm/module.c:483-489 | Reads of the stack count from the third word, writes from the first |
| FileMeaning.FrameHolds | vm/module.c:152 | A frame holds 123 words: for all n, code that pushes n words and pops them passes the stack check if and only if n is at most 123 |
| Loader.CheckEntries | vm/module.c:538-571 | Accepted are exactly the modules that the walks from the first cell and then from every function accept, each on the marks of those before; every mark then passes its tests and every function starts at its argument count |
| Loader.ReadCode | vm/module.c:418-571 | An accepted module is verified, linked from the unpacked cells, with its functions at their argument counts; one that unpacks and passes the linker's tests is rejected only when its walks refuse it |
| FrameSafety.TableAgreesWithInterpreter | vm/opcodes.h:166-233 | The stack table and the interpreter agree on every instruction that stays in the frame, but for an object call's receiver |
| FrameStorage.PushedIsRead | vm/interp.c:662-670 | After a push and any run above the word pushed, with whatever calls, traps and exceptions, where k words lie on it every access to depth k gives it back and changes nothing else |
| FrameStorage.PushedIsPopped | vm/interp.c:314-320 | Popping it with the words on it leaves the stack of before |
| FrameStorage.PushedIsLeft | vm/interp.c:909-912 | So does returning with them |
| FrameStorage.SetIsRead | vm/interp.c:751-754 | Setting a word changes it alone, and after any run above it, it is read back |
| FrameStorage.PushedInOrder | vm/interp.c:811-816 | Words computed and pushed one after the other lie on the stack in that order, for any number of them |
| FrameStorage.TailCallHandsOver | vm/interp.c:844-863 | A tail call hands over exactly the words pushed last, in the order pushed, and takes the rest of the frame off below them |
| FrameStorage.ThrownIsCaught | vm/interp.c:892-903 | After a trap and any run above its record, an exception that leaves those words lands at the trap's handler with the exception in the accumulator and the stack and the trap of before |
| FrameStorage.EndedIsGone | vm/interp.c:904-908 | Ending the trap leaves the stack and the trap of before, and the accumulator alone |
| FrameSafety.StepSafe | vm/interp.c:647-1091 | In protected code a step from a marked state, throwing or not, lands on a mark at its height with the records of its label, or leaves the frame with exactly the callers' words and the trap of its entry; it never looks at or pops a word below the frame |
| FrameSafety.RunSafe | vm/interp.c:647-1091 | The same over whole runs of a frame, of any length and with any exceptions, under conditions on the code and the entry alone: heights stay at their marks, the callers' words stay as they were, and on return or throw the trap is the one that was set on entry |
| FrameSafety.RaiseSafe | vm/interp.c:1111-1160 | An exception lands on its handler's mark at the height held at the trap, with the records that were live there, or leaves the frame |
| TrapLabels.InductiveIffProtected | vm/module.c:134-218 | The labelled marks of verified code are an invariant of the interpreter if and only if the labels protect its trap records |
| TrapLabels.TrapFreeSafe | vm/module.c:134-218 | In verified code without traps every run keeps to its marks, its frame and its trap, whatever is thrown at it |
| TrapWitnesses.SharedHandlerMisleads | vm/module.c:168 | Code that the walk accepts, with a run from its entry in which an exception reaches its handler six words below its mark and the next instruction looks below the frame; no labels protect it |
| TrapWitnesses.RecordsAreUnprotected | vm/interp.c:751-754 | Code that the walk accepts, with a run from its entry that overwrites its own trap record, after which a throw finds no handler address; no labels protect it |
| TrapWitnesses.TrapsCanBeLeftBehind | vm/interp.c:909-913 | Code that the walk accepts and that returns with its trap still set, so that the caller's next throw finds the trap above the stack; no labels protect it |
| TrapWitnesses.SafeButRefused | vm/module.c:168 | Verified and protected code that the walk refuses: its second trap is compared with a handler that the first has marked |
| Activations.ActivationKept | vm/interp.c:844-875 | In every tree of calls, tail calls (of functions and of native code) and exceptions between protected functions, each frame keeps to its marks, and each gives back the trap it was entered with, relying on its callees for nothing |
| VmStack.Vm.StackExpand | vm/others.c:331-356 | Either nothing moves, exactly when doubling passes the limit, or both stacks are in a new array of twice the size at their offsets from its ends |
| VmStack.Vm.Push | vm/interp.c:811-816 | The operand stack gains the accumulator, the call stack is unchanged, whether or not the array was replaced |
| VmStack.Vm.PushInfos | vm/interp.c:328-334 | The call stack gains the four words of call information; operands are unchanged across expansion |
| VmStack.Vm.PopInfos | vm/interp.c:335-343 | The caller's `env` and `vthis` come back and the four words are gone |
| VmStack.Vm.SetupTrap | vm/interp.c:579-590 | The record holds the call stack's height, the saved state and the previous trap, as offsets; failure leaves memory alone but `sp` below the call stack's top |
| VmStack.Vm.FlushStack | vm/interp.c:517-549 | The trace lists the frames above the mark, outermost first, before the older trace, and only those words are erased |
| VmStack.Vm.ProcessTrap | vm/interp.c:592-615 | The whole state afterwards: stacks cut at the record, saved state back, the trace extended, and the words erased in the call stack if a failed reservation had left `sp` there |
| VmStack.Vm.EndTrap | vm/interp.c:904-912 | It succeeds exactly when the innermost record is on top, and drops it |
| VmStack.Vm.Pop | vm/interp.c:314-320 | Exactly `n` operands go and nothing else changes |
| VmStack.Vm.SetStack | vm/interp.c:751-754 | Exactly one operand is replaced |
| TrapChain.RunInside | vm/interp.c:579-615 | Every well-nested run, steps without room for what they reserve included, keeps the outer record, everything below it, and a chain of strictly lower records down to it; only call words that `sp` had passed are erased |
| TrapChain.ProcessRestores | vm/interp.c:592-615 | When the outer trap is innermost again, processing it gives back the state of its setup |
| TrapChain.UnwindRestores | vm/interp.c:592-615 | Processing record after record ends, and ends in the state of the outer setup |
| TrapChain.ProtectedRunRestores | vm/interp.c:579-615 | Set a trap up, run any well-nested code with inner traps, calls, expansions and overflows, throw, with `sp` moved or not: stacks, `vthis`, `env`, native frame and trap are those of before, but for the call words that the lowest `sp` had passed |
| TrapChain.RestoredIff | vm/interp.c:592-615 | That state is the one of before if and only if `sp` never passed the last word of the call stack that is not null |
| TrapChain.SolidFrames | vm/callback.c:112-117 | In the frame of an interpreted function that word is its last, in the one that `val_callEx` pushes its first |
| VmRun.Perform | vm/interp.c:579-615 | On the machine itself every step of protected code, a failing reservation and its exception included, does what `TrapChain` says |
| VmRun.PerformAll | vm/interp.c:579-615 | So does every run |
| VmRun.ProtectedRun | vm/interp.c:579-615 | Set a trap up, run any well-nested code, throw: stacks, `vthis`, `env`, native frame and trap of the object are those of before, but for call words that `sp` had passed; it fails exactly when there is no room for the record |
| TrapChain.OverflowHurts | vm/interp.c:579-590 | A run from an empty stack that fills the array and overflows: the handler's frame finds a word of its call information erased |
| TrapChain.OddNativeFrameIsLost | vm/interp.c:583-586 | The saved native frame comes back if and only if its lowest bit was clear |
| TrapChain.ProtectedCallRestores | vm/callback.c:40-136 | Once its trap is set up, `val_callEx` with an exception slot leaves both stacks, `vthis`, `env` and the trap as it found them, whether the callee returned or threw, but for call words that `sp` had passed |
| TrapChain.FailedSetupLosesTrap | vm/callback.c:48-58 | Without room for its trap it never does: the handler has used up the trap of its caller, or `sp` stays where the record was to go |
| TrapChain.FailedFrameKeepsReceiver | vm/callback.c:102-109 | Without room for the callee's frame all is given back but `vthis`, and the failure goes on to the caller's trap |
| BlockSplit.GetBlockAddresses | vm/llvm/neko_function.cpp:12-55 | The addresses are exactly the targets, fall-throughs and jump-table defaults of the function |
| BlockSplit.SplitByAddresses | vm/llvm/neko_code_chunk.cpp:30-51 | The chunks partition the range in order, start at the given addresses and only there |
| BlockSplit.GetBlocks | vm/llvm/neko_function.cpp:61-73 | For all code whose jump targets and defaults exist the blocks partition the function; each starts at a leader and reaches to the next |
| SlotCompiler.Translate | vm/llvm/llvm_code_generation.cpp:50-80 | The loop produces the block's translation, with its edges in the order they are followed |
| SlotCompiler.CompileFine | vm/llvm/llvm_instr_helper.cpp:189-451 | Edges lead to block starts, slots on the symbolic stack are distinct, and no slot is given out twice |
| SlotCompiler.FunctionCompiler.CopyOrCheckStack | vm/llvm/blocks.h:51-60 | The first stack that reaches a block is kept, later ones are not compared; the model notes whether they agreed |
| SlotCompiler.FunctionCompiler.AddToCompilationQueue | vm/llvm/blocks.cpp:83-88 | A block is queued the first time only |
| SlotCompiler.FunctionCompiler.FollowEdges | vm/llvm/llvm_instr_helper.h:37-53 | All targets are scheduled with a stack, none outside the reachable set |
| SlotCompiler.FunctionCompiler.GetNextToCompile | vm/llvm/blocks.cpp:73-81 | The block at the front, not compiled before, with an entry stack |
| SlotCompiler.FunctionCompiler.MakeBasicBlock | vm/llvm/llvm_code_generation.cpp:50-80 | One round: the block at the front is translated, its targets get stacks and places in the queue, and nothing else changes |
| SlotCompiler.MakeFunction | vm/llvm/llvm_code_generation.cpp:118-142 | The loop ends with what the rounds of the queue make: every block is the translation of its instructions from its entry stack with its edges leading to blocks, the entry holds the arguments, nothing outside a closed set is compiled, and the blocks are a program if and only if all edges agreed |
| SlotCompiler.AgreedIffProgram | vm/llvm/blocks.h:51-60 | The comparison that the code no longer makes is exactly what decides whether the blocks are a program that the simulation holds of |
| SlotSimulation.EmitRuns | vm/llvm/llvm_instr_helper.cpp:189-451 | The code for each straight-line instruction does to slots and accumulator what the interpreter does to its stack, including comparisons, errors and arrays |
| SlotSimulation.StepFollows | vm/interp.c:647-955 | Every interpreter step, branches and jump tables included, is matched by finitely many steps of compiled code |
| SlotSimulation.RunFollows | vm/interp.c:647-955 | The same for any number of steps: equal accumulator, slots equal to the operand stack, same result or exception |
| SlotSimulation.CompiledFunction | vm/llvm/llvm_code_generation.cpp:93-142 | From a call with any arguments, compiled code returns or throws what the interpreter does, with the same effects |
| SlotOperators.Compared | vm/interp.c:433-439 | At every stack with an operand, the comparison of it with the accumulator answers true exactly when the result is below, at or above 0 as its name says and not the 254 of an invalid comparison |
| SlotOperators.ComparisonReturns | vm/llvm/llvm_instr_helper.cpp:299-327 | A function that compares its two arguments returns true in exactly that case, as interpreted and as the compiler makes it |
| SlotOperators.CompareReturns | vm/interp.c:1062-1068 | `$compare` returns the result, or null where the comparison is invalid, in both |
| SlotOperators.PhysCompareReturns | vm/interp.c:1069-1072 | `$pcompare` returns -1, 0 or 1 as the addresses compare, in both |
| SlotOperators.TestReturns | vm/interp.c:944-955 | Null, false and zero are false and everything else is true, and only null is null, in both |
| MachineAgreement.StepAgrees | vm/interp.c:647-955 | On code laid out as cells, the interpreter that compiled code follows and the frame that the stack check is about go on alike, stop alike where an operand is missing, return alike and throw alike |
| MachineAgreement.RunAgrees | vm/interp.c:647-955 | So do runs of any length: operands, accumulator and place correspond, and callers' words and trap are those of before |
| SlotSimulation.UnequalStacksMiscompile | vm/llvm/blocks.h:51-60 | What `MakeFunction` makes of a function with two edges of different slots: the interpreter returns a value, compiled code reads a slot never written |
| SlotSimulation.MeetingCompiled | vm/llvm/llvm_code_generation.cpp:118-142 | Whenever the queue of that function runs empty, these are its blocks, entry stacks and disagreement |
| SlotOrigins.AgreedIffSourced | vm/llvm/blocks.h:51-60 | For every function: the slots agree on all edges, and the compiler's output is a program that the simulation holds of, if and only if the operands of each block have the same origins (arguments, or the instructions that pushed them) along every edge into it |
| SlotOrigins.SourcedCompiled | vm/llvm/llvm_code_generation.cpp:93-142 | The compiled code of such a function returns or throws what the interpreter does, for all arguments |
| SlotAgreement.BalancedAgrees | vm/llvm/llvm_code_generation.cpp:118-142 | If every block of a function leaves the operand stack as it found it, all edges agree, in whatever order the blocks come up |
| SlotAgreement.BalancedCompiled | vm/llvm/llvm_code_generation.cpp:93-142 | The compiled code of such a function returns or throws what the interpreter does, for all arguments |
| ObjTable.PutBinds | vm/objtable.c:60-92 | Replacing binds the id and leaves all other bindings |
| ObjTable.PutAscending | vm/objtable.c:60-92 | Ids stay strictly ascending |
| ObjTable.WithoutUnbinds | vm/objtable.c:20-46 | Removing unbinds the id and leaves all other bindings |
| ObjTable.CompactedBinds | vm/objtable.c:48-58 | Compaction drops exactly the null bindings |
| ObjTable.Table.Search | vm/objtable.h:26-46 | Bisection ends where the id is or would go, and finds it if and only if it is there |
| ObjTable.Table.Get | vm/objtable.h:48-68 | The value bound, or null |
| ObjTable.Table.Replace | vm/objtable.c:60-92 | The table's contents with the id bound, in place or in a wider array |
| ObjTable.Table.Remove | vm/objtable.c:20-46 | The contents without the id, and whether it was there |
| ObjTable.Table.Optimize | vm/objtable.c:48-58 | The contents without their null bindings, compacted in place |
| ObjTable.Table.CopyTo | vm/objtable.c:94-98 | Equal contents in an array of its own |
| FieldLookup.Find | vm/others.c:434-446 | On acyclic chains the walk ends and gives the first binding along the chain, or null when no object on it binds the field |
| SerialFormat.Ser | libs/std/serialize.c:168-290 | Numbers are only ever added, and no value starts with a byte that could be taken for the end of an object |
| SerialFormat.Unser | libs/std/serialize.c:345-542 | On any bytes the reader ends, moves forward within them and leaves every node that existed before as it was |
| SerialRenaming.SerCovers | libs/std/serialize.c:120-153 | When the writer returns, everything that the nodes it numbered refer to is numbered |
| SerialRenaming.RebuildFrom | libs/std/serialize.c:513-537 | Appending the cells of a table one by one to the chains their hash keys select gives the same chains back, in order |
| SerialRenaming.TableRebuilt | libs/std/serialize.c:266-281 | The same for cells whose values have been renamed |
| SerialRoundTrip.IntBack | libs/std/serialize.c:102-113 | A 32-bit integer survives its four bytes |
| SerialRoundTrip.ValueBack | libs/std/serialize.c:345-542 | From anywhere in a stream and with any earlier references: the value is rebuilt, the bytes are consumed exactly, reference numbers agree, and nodes still being filled are not disturbed |
| SerialRoundTrip.ObjectBack | libs/std/serialize.c:369-393 | The same for fields, in order, and the prototype; a zero id among them makes the reader refuse |
| SerialRoundTrip.CellsBack | libs/std/serialize.c:513-537 | The same for the cells of a hash table |
| SerialRoundTrip.SerDistinct | libs/std/serialize.c:120-153 | No address is numbered twice |
| SerialReach.NumberedIsReached | libs/std/serialize.c:120-153 | The writer numbers exactly the addresses that a path of references leads to from the value |
| SerialReach.NumberedIsLeast | libs/std/serialize.c:120-153 | They lie in every set that holds the value's references and is closed under those of its nodes |
| SerialReach.WrittenUnhooked | libs/std/serialize.c:115-118 | Where an object with a field `__serialize` is reached, the writer fails |
| SerialRoundTrip.RoundTrip | libs/std/serialize.c:168-542 | On every heap, for every value that the writer does not fail on, `unserialize(serialize(v))` consumes exactly the bytes and rebuilds what `v` reaches up to addresses, with cycles and sharing and nothing merged but empty strings and empty arrays, if and only if no object reached has a field of id 0; otherwise it refuses |
| SerialDepth.WrittenIff | libs/std/serialize.c:168-171 | On every heap the writer succeeds if and only if every value on the way that it takes, entering each node when it first comes upon it, is at most 350 deep, and every reference there exists and has no `__serialize` |
| SerialDepth.WayFails | libs/std/serialize.c:168-171 | A way of first visits to a value one deeper makes it fail, wherever on that way it starts and whatever it has numbered aside of it |
| SerialDepth.NestsAreWritten | libs/std/serialize.c:168-290 | Whatever the order, values that nest nowhere more than 350 deep, entering no node twice, are written |
| SerialDepth.BoxesAreWritten | libs/std/serialize.c:168-171 | For all n, n arrays in each other around an empty one are written if and only if n is below 350 |
| SerialDepth.WritableRoundTrip | libs/std/serialize.c:168-542 | The round trip without assuming success: on every heap within the machine's limits, every value that nests so is written and read back, unless an object reached has a field of id 0 |
| SerialBytes.LeafBytes | libs/std/serialize.c:173-190 | The bytes of null, booleans, integers and floats, tag by tag |
| SerialBytes.ReferenceBytes | libs/std/serialize.c:120-153 | A node met again is `r` and the number of nodes numbered since |
| SerialBytes.NodeBytes | libs/std/serialize.c:191-234 | How strings, arrays and objects start and end, and that they are numbered first |
| SerialBytes.PrototypeBytes | libs/std/serialize.c:212-221 | A prototype comes after the zero id and `p` |
| SerialBytes.SizesRefused | libs/std/serialize.c:401-408 | A length is refused exactly when it is negative, reaches 2^29, or asks for bytes that are not there |
| SerialBytes.FieldBytes | libs/std/serialize.c:288-291 | A field is its id and its value, four bytes low byte first |
| SerialBytes.CellBytes | libs/std/serialize.c:263-280 | A table is `h`, its two counts, and hash key, key and value of each cell |
| RefTree.GrownHolds | libs/std/serialize.c:120-153 | The search tree answers as a scan of the numbered addresses would |
| SerialWriter.Writer.WriteChar | libs/std/serialize.c:67-71 | One byte more, across chunks |
| SerialWriter.Writer.WriteStr | libs/std/serialize.c:79-93 | The bytes more, split over as many chunks as it takes |
| SerialWriter.Writer.WriteRef | libs/std/serialize.c:120-153 | A known address is written as its distance back, a new one is numbered next, unless its object has a `__serialize` |
| SerialWriter.Writer.Serialize | libs/std/serialize.c:168-290 | The in-place writer appends exactly the format's bytes and numbers exactly its addresses, or fails exactly when the format does, past the depth limit or on a `__serialize` |
| SerialWriter.Writer.WriteBuckets | libs/std/serialize.c:271-279 | Chains are written bucket by bucket, each in order |
| SerialWriter.Writer.Contents | libs/std/serialize.c:318-343 | Joining the chunks from the last to the first gives everything written |
| SerialWriter.SerializeAll | libs/std/serialize.c:318-343 | The string is the format's, or the failure is; it succeeds if and only if the value is at most 350 deep on the way taken and can be written (`SerialDepth.Writable`) |
| SerialReader.Reader.AddNumber | libs/std/serialize.c:155-164 | The table gains the node, through any number of doublings |
| SerialReader.Reader.Unserialize | libs/std/serialize.c:345-542 | The reader with its cursor, heap and table does what the format prescribes on every input, malformed ones included |
| SerialReader.Reader.ReadElements | libs/std/serialize.c:401-418 | Elements are stored as they are read |
| SerialReader.Reader.ReadFields | libs/std/serialize.c:369-393 | Fields up to the zero id, then the prototype |
| SerialReader.Reader.ReadAllCells | libs/std/serialize.c:513-537 | Each cell goes to the end of its chain |
| FieldIntern.ComputeFieldId | vm/others.c:358-368 | The loop computes the 31-bit polynomial hash |
| FieldIntern.LoadOk | vm/others.c:369-370 | A count loaded before the array never exceeds it |
| FieldIntern.StoreCellsGrows | vm/others.c:396-416 | Publishing the widened array binds one new id and loses none |
| FieldIntern.StepInv | vm/others.c:358-432 | Every step of every thread keeps the invariant and every binding |
| FieldIntern.RunInv | vm/others.c:358-432 | So does every interleaving |
| FieldIntern.NoReadOutside | vm/others.c:370-395 | No search, locked or not, reads outside the array it loaded |
| FieldIntern.Interned | vm/others.c:358-428 | `val_id` succeeds exactly when its id stands for its name, then and for ever; it fails exactly on a collision |
| FieldIntern.IdsAreInjective | vm/others.c:358-428 | Successful calls, in whatever threads, give equal ids if and only if the names are equal |
| FieldIntern.NameAnswers | vm/others.c:430-432 | In every run, `val_field_name` answers what its table held of the id, as far as the count it had loaded, when it loaded the cells, whatever other threads do meanwhile |
| FieldIntern.NameMissesIff | vm/others.c:430-432 | So it answers null for an id whose cell is there if and only if that cell's index is not below the count loaded, and otherwise the name bound |
| FieldIntern.NameFound | vm/others.c:430-432 | If nobody stores into the table between the two loads, nor is about to, it answers the name bound |
| FieldIntern.NameCanMiss | vm/others.c:430-432 | A run in which `val_field_name` answers null for an id that `val_id` returned before it was asked |
| Deque.Queue.Add | libs/std/thread.c:102-115 | One message at the end; both end pointers are right |
| Deque.Queue.Push | libs/std/thread.c:117-128 | One message at the front |
| Deque.Queue.Take | libs/std/thread.c:130-154 | The first message, and whether another consumer has to be woken |
| WaitQueue.StepKeepsIff | libs/std/thread.c:102-154 | A step keeps "no lost wakeup" if and only if it is not a timeout of the only woken thread |
| WaitQueue.NoLostWakeup | libs/std/thread.c:130-154 | In every run without timeouts, a blocked consumer beside a non-empty queue implies a woken one whose next step takes the first element |
| WaitQueue.TimeoutSwallowsWakeup | libs/std/thread.c:375-412 | A run with one timed wait after which a thread is blocked beside a released lock with nobody woken |
| WaitQueue.FirstInFirstOut | libs/std/thread.c:102-154 | With `add` only, messages come out in the order they went in, whatever the interleaving |
| WaitQueue.Conserved | libs/std/thread.c:102-154 | With `push` too, each message comes out or is still there as often as it went in |
| WaitQueue.CounterConserved | libs/std/thread.c:343-412 | The lock's counter is the releases less the successful waits, timed waits included |
| HashTable.ResizeKeepsOrder | vm/builtins.c:775-813 | Resizing keeps the cells of one hash key in their order |
| HashTable.RehashedOk | vm/builtins.c:775-813 | Resizing loses no cell and puts each in the bucket its hash key selects |
| HashTable.ApplyMeans | vm/builtins.c:775-1001 | Each operation keeps the table well formed, acts on the stack of values of its key alone, and keeps the load at most two unless it is an explicit resize |
| HashTable.RunRefines | vm/builtins.c:775-1001 | So does any sequence of operations |
| HashTable.Table.Get | vm/builtins.c:815-839 | The value that masks the others, or null |
| HashTable.Table.Put | vm/builtins.c:924-971 | The masking value is replaced in place or a new cell added, and whether the key was new |
| HashTable.Table.Push | vm/builtins.c:973-1001 | A new cell in front, after growing if the load is two |
| HashTable.Table.Delete | vm/builtins.c:876-922 | The masking cell goes, and whether there was one |
| HashTable.Table.Resize | vm/builtins.c:786-813 | The resized table in a new array |
| MemSize.Reach | libs/std/memory.c:70-107 | A closed set of nodes containing the roots |
| MemSize.ReachLeast | libs/std/memory.c:70-107 | The least such set |
| MemSize.ReachIffPath | libs/std/memory.c:70-107 | A node is in it if and only if a path of elements, fields and prototypes leads there |
| MemSize.InsertedMembers | libs/std/memory.c:40-65 | The cache tree gains exactly the node and stays a search tree |
| MemSize.Sizer.Size | libs/std/memory.c:67-107 | Ends on every heap; adds up the own sizes of exactly the nodes met for the first time |
| MemSize.ComputeSize | libs/std/memory.c:178-181 | The sum of own sizes over the nodes reachable from the value, each once |
| ValHash.ValHash | vm/hash.c:105-109 | Hash keys lie in 0..2^30-1, for every value of every finite heap |
| ValHash.HashSame | vm/hash.c:34-103 | Corresponding values of mirrored heaps hash alike, cycles included |
| ValHash.AddressIndependent | vm/hash.c:105-109 | Equal hash keys on isomorphic heaps, whatever the addresses |
| ValHash.HashSurvivesSerialization | libs/std/serialize.c:513-537 | A value read back has the hash key of the value written, so stored hash keys stay right |
| ValHash.ComputeHash | vm/hash.c:34-109 | The traversal with its ancestor list computes that hash key |
| HashTrace.KeyIsTotal | vm/hash.c:34-109 | The hash key is the exact total, modulo 2^30, of the numbers met on the way through the value, each with its factor: characters from the last to the first and signed, elements from the last to the first, fields after their ids, distances to ancestors |
| HashTrace.OneDifference | vm/hash.c:30-31 | Both factors can be undone: values whose numbers differ in one place have equal hash keys if and only if the two are the same modulo 2^30 |
| HashTrace.StringsApart | vm/hash.c:53-59 | Strings that differ in one character have different hash keys |
| DebugTable.BitCount | vm/interp.c:508-515 | Clearing the lowest bit until nothing is left counts the bits |
| DebugTable.IndexIsRank | vm/interp.c:525-528 | Base plus bit count of the shifted word is the number of positions opened up to the instruction |
| DebugTable.WithBitOk | vm/module.c:230-238 | Each flag goes where the lookup expects it and disturbs no other |
| DebugTable.Reader.Append | vm/module.c:220-228 | Growing by half always makes room for the next position |
| DebugTable.Reader.Read | vm/module.c:240-334 | For every stream, the compressed table resolves each instruction to the position the stream gives it; malformed streams are refused, and a run of length zero that would open a position never ends |
| DebugWriter.TableBack | src/neko/Bytecode.nml:201-260 | Every table of positions that the compiler writes, with any changes of file and lines of 21 bits, is what the loader reads back, at the end of exactly those bytes |
| DebugWriter.Writer.Write | src/neko/Bytecode.nml:219-260 | The writer with its pending run writes those bytes |
| DebugWriter.LongLineIsCut | src/neko/Bytecode.nml:250-256 | A line beyond 21 bits comes back without its upper bits |
| BaseCodec.Width | libs/std/string.c:336-340 | The first width that covers the alphabet |
| BaseCodec.BitBuffer.Push | libs/std/string.c:348-352 | Wrap-around of the 32-bit buffer leaves the pending bits alone |
| BaseCodec.BitBuffer.Pull | libs/std/string.c:353-354 | The bits that waited longest come out, the others wait on |
| BaseCodec.RegroupedTwice | libs/std/string.c:322-408 | Regrouping bits there and back is the identity |
| BaseCodec.Encode | libs/std/string.c:322-357 | Succeeds exactly for 2 to 256 letters that are a power of two and encodings of at most 2^29-1 letters; reads at most the closing NUL beyond the input |
| BaseCodec.Decode | libs/std/string.c:366-408 | Succeeds exactly when every letter it gets to is in the alphabet; never reads beyond its input |
| BaseCodec.RoundTrip | libs/std/string.c:322-408 | For every alphabet of 2^n distinct letters and every string, decoding the encoding gives the string back, at its length |
| Stats.MergedStable | vm/stats.c:152-166 | Merging two sorted runs is stable |
| Stats.PassRuns | vm/stats.c:140-169 | A pass over sorted runs of `w` leaves sorted runs of `2w` |
| Stats.Sort | vm/stats.c:134-177 | The sort ends and gives a list in which less time comes first and in the same time more calls, where elements that compare equal keep their order |
| Stats.MergedSums | vm/stats.c:183-200 | For every kind, merging duplicates leaves the sums of calls, of errors, of time and of time below what they were |
| Stats.MergedKinds | vm/stats.c:183-200 | It leaves exactly the kinds there were |
| Stats.MergedInOrder | vm/stats.c:183-200 | They stay in the order in which they first occur |
| Stats.MergedDistinct | vm/stats.c:183-200 | Afterwards kinds are pairwise distinct |
| Stats.Build | vm/stats.c:179-201 | The list built is a permutation of the merged one, by time and in the same time by calls downwards, with each kind once and with its four sums those of the list that went in |
| Digest.Md5.Update | libs/std/md5.c:189-221 | However a message is cut into pieces, the context is that of the whole: chaining state after its whole blocks, the rest in the buffer, the length in two words with their carry |
| Digest.Md5.Finish | libs/std/md5.c:231-253 | The digest is the chaining state of exactly the padded message |
| Digest.LengthWords | libs/std/md5.c:236-241 | The shifted words are the eight bytes of the length in bits, low byte first |
| Digest.PaddedInjective | libs/std/md5.c:223-253 | Below 2^61 bytes no two messages are padded alike, in MD5 or in SHA-1 |
| Digest.Sha1.Update | libs/common/sha1.c:93-107 | The same for SHA-1, whose counts are in bits, with an `unsigned long` of either width |
| Digest.Sha1.Final | libs/common/sha1.c:109-126 | The digest is the chaining state of the message, padded a byte at a time and ended by the bytes of the two counts; the last call of the compression function comes too late to change it |
| Digest.CountedIff | libs/common/sha1.c:93-115 | Those bytes are the length in bits if and only if `unsigned long` has 32 bits or the low words added up stay below 2^32, so that no carry is lost |
| Digest.CountWords | libs/common/sha1.c:112-115 | The bytes are those of the high count and of the low 32 bits of the low count, high byte first, whatever the width |
| Xml.Walk | libs/std/xml.c:82-345 | On every text the parser ends, having moved forward: a nested call before the end of the text, the outermost one at it |
| Xml.MoveOk | libs/std/xml.c:92-334 | Every round moves on, or looks at the same character in a state of lower rank; nothing beyond the closing NUL is looked at |
| Xml.WalkNested | libs/std/xml.c:82-345 | From any state of any call: each call made to the events object has its place, closing tags match their openers whatever the case, and a call that returns has closed its element |
| Xml.ParsedNested | libs/std/xml.c:374-385 | For every text the events are well nested, also when an error is raised; on return nothing is open and the document holds something |
| Xml.Parser.Parse | libs/std/xml.c:82-345 | The loop, with its recursion for contents, makes exactly those calls and ends in that way, the exception of colliding attribute names included |
| Xml.ParseXml | libs/std/xml.c:374-385 | The same behind the byte order mark, up to the first NUL |
| Xml.MarkSkipped | libs/std/xml.c:374-385 | A byte order mark is skipped, nothing else is, and what comes behind a NUL does not matter |
| XmlRoundTrip.AttribsRead | libs/std/xml.c:198-258 | Attributes whose ids stand for no other names are read back in order, with their values |
| XmlRoundTrip.ElemRead | libs/std/xml.c:187-305 | Such an element that is written out is read back, with its attributes and contents |
| XmlRoundTrip.AllRead | libs/std/xml.c:82-345 | So is any list of such nodes, in whatever call and wherever it stands |
| XmlRoundTrip.AllRaises | libs/std/xml.c:224-227 | Any other list raises, however deep the attribute stands whose id stands for another name |
| XmlRoundTrip.RoundTrip | libs/std/xml.c:374-385 | Parsing a document that is written out makes the calls that describe it and returns at its end, if and only if no attribute's id stands for another name; otherwise it raises |
| XmlRoundTrip.RoundTripIff | libs/std/xml.c:224-227 | When nobody else interns names meanwhile, that is if and only if no two of the document's attribute names, nor one of them and one interned before, have the same id |
| XmlRoundTrip.CollidingNames | libs/std/xml.c:224-227 | The document `<a cctakw="1" aaazaa="2"/>`, whose two names have the same id, raises whatever was interned before |
| XmlRoundTrip.ClosingNames | libs/std/xml.c:286-305 | For all names, `<a></b>` is an element if and only if a and b are the same in small letters; otherwise it raises |
| XmlRoundTrip.RepeatedRaises | libs/std/xml.c:219-227 | A tag in which an attribute occurs twice raises, wherever the two stand and whatever the ids stand for |

## Left out

- StackCheck.CheckFresh: on code with traps acceptance is that of the function `Walked`, in its order. The condition on heights alone does not give it, as whether a handler has been marked when its trap is looked at decides (`TrapWitnesses.SafeButRefused`).
- FrameSafety.RunSafe: one frame of the bytecode interpreter. Calls are atomic; callees that are functions compiled by the LLVM back end, whose arguments the interpreter does not pop, are not covered.
- Activations.ActivationKept: that native code gives the trap back is a premise of the tree (`CameFrom`).
- TrapLabels.InductiveIffProtected: for labels whose records could be there (`Shaped`): six words each, with a handler cell for each. A label that no stack can have says nothing about the interpreter.
- TrapChain.RunInside: a step without room throws to a trap inside the run; the outermost throw, with `sp` moved as far as a reservation moves it, is what `ProtectedRunRestores` ends with.
- SlotCompiler.MakeFunction: code in which a jump leads into a jump table is accepted by the loader, but the compiler's block iterator then runs past the end of its block. `GetBlocks` covers it, `MakeFunction` requires `WellFormed`.
- SlotSimulation.CompiledFunction: one direction. Equal slots on all edges suffice for compiled code to be right; that they are needed for every function is false, since an unread slot may differ.
- SerialRoundTrip.RoundTrip: no functions, so no `__serialize` that is one, and no other abstracts. A hash table is part of the value that holds it: the writer copies it wherever it occurs, so sharing of tables is not claimed; its item count is the number of its cells. Where a hash table read from malformed bytes makes the library divide by zero or index below its array, the model refuses the bytes.
- SerialRoundTrip.RoundTrip: reference numbers are C integers, so fewer than 2^31 numbered nodes.
- SerialDepth.WrittenIff: strings and arrays of 2^31 and more elements, whose lengths overflow; the round trip has the machine's limits.
- FieldIntern.NoReadOutside: sequentially consistent memory; weaker memory orders are not modelled.
- WaitQueue.NoLostWakeup: Windows semaphores are not modelled, only POSIX condition variables.
- FieldLookup.Find: on a cyclic chain the machine loops for ever when the field is missing.
- HashTable.RunRefines: user comparison functions, keys that change after they were inserted, and keys of different types that compare equal but hash differently.
- MemSize.ComputeSize: functions, modules and abstracts, which are sized without the cache, and the 31-bit result.
- ValHash.ValHash: characters are signed, as on the platforms the library is built for.
- DebugTable.Reader.Read: file names and the header before the table of positions.
- DebugWriter.TableBack: lines that do not fit 21 bits, which the format cannot hold (`LongLineIsCut`).
- Stats.Sort: counters whose differences overflow a C `int`.
- FileMeaning.AcceptedExactly: within the limits that the header of a module imposes, at most 2^20 cells and 65535 globals.
- VmRun.Perform: a failing reservation that would move `sp` below the array itself (`InArray`), where the library erases words in front of it.
- BaseCodec.Encode: strings of 2^28 bytes and more, whose length in bits overflows the C `int` it is computed in.
- BaseCodec.Decode: strings whose length times the width passes 2^31, which overflows in the same way.
- BaseCodec.RoundTrip: the same limits; the lemma is about encodings of any length.
- XmlRoundTrip.RoundTrip: attribute values with quotes of both kinds cannot be written; spaces beyond those that are needed are parsed by the model but not written; the line number in error messages is not modelled.
- Digest.Md5.Finish: what the compression functions compute, and the order in which `make_md5` feeds the parts of a value.
- Digest.Sha1.Final: where `unsigned long` has 64 bits, `sha1_transform` fills half of its block and reads the rest uninitialised; the model takes the compression function to be one.
- Linked cells (hash chains, the reference tree, the lists being sorted) are values that the methods replace; pointer aliasing inside them is not modelled. The message queue is modelled with its links.
- The slot compiler's `Trap`, `EndTrap`, `TailCall`, `MakeEnv`, globals, environments and object fields; LLVM itself.
- Garbage collection, `setjmp`, native calls, the x86 back end and all input and output.
- URL encoding, UTF-8, multipart bodies, sockets, files, databases, web server modules and the user interface: easier, or plumbing.

# iosdbg in Dafny

iosdbg is a native arm64 debugger written in C. Behind its Mach calls are small engines, each with a
property the debugger depends on. This project models them and proves those properties.

| engine | files | main results |
|---|---|---|
| breakpoints and watchpoints | `Engine`, `EngineInvariants`, `Exactness`, `Ids`, `WatchBytes`, `NewPoints` (values); `Debuggee` (objects) | code, registers and lists agree in every state; memory is restored exactly |
| stops and runs | `Stops`, `StopsInvariants`, `StopMeaning`, `Transparency`, `Progress`, `StepCommands`, `Detach`, `Branch`; `StopHandling` | the debugged program executes what the undebugged one would, and no enabled breakpoint is missed |
| threads coming and going | `Churn`; `ThreadUpdating` | thread-specific points follow their thread |
| lists | `LinkedList` | deleting while walking is safe |
| expressions | `Arithmetic`, `Longs`, `ExprMachine`, `ExprTree`, `ExprSub`; `Stack`, `StrExt`, `ExprEval`, `ExprPipeline`, `Strtol`, `ConvVars` | the evaluator computes from its text what every tree stands for, as integers |
| symbol index | `Uleb`, `FunctionStarts`, `SymbolIndex`, `Symbolication`; `DynArray`, `StartsReading`, `SymbolLookup` | from encoded deltas to the right function |
| location expressions | `Dwarf`, `DwarfCompile`, `DwarfMeaning`; `LocationLists`, `LocationDecoding` | encoded trees decode to what they stand for, as integers and bits; copies decode alike |
| exception hand-off | `Exceptions`; `Queue`, `ExceptionServing` | every exception is answered once and in order |
| vector registers | `VectorReg` | printing and reading back is the identity |

In each engine the first group of files says what the code computes, as functions on values, and
proves the properties; the files behind the semicolon are the code in its own form, as classes,
arrays and loops, and every method's contract ties its new state to those functions.

## Reading the model

- A `State` of the breakpoint engine holds both point lists, the threads with their debug registers
  and notes, and the code by address. Class `Debuggee` keeps such a state as a ghost and proves at
  every method that its objects agree with it. Code is a map from addresses to instruction words.
- A run (`Transparency`) interleaves the turns of threads, exceptions and user commands. The processor
  is any function from a machine state, a thread and an instruction word to the next machine state.
  A turn at a BRK or an armed hardware breakpoint traps; a pending step traps after one instruction,
  and the kernel clears the step bit when it delivers that trap.
- Longs wrap in two's complement, divisions truncate, unsigned longs and the DWARF stack index wrap.
  Where C leaves a result undefined (a zero divisor, a shift out of range, an access outside the
  512 slots, text past the 1024 characters of its buffer) the DWARF machine faults, and
  `decode_uleb128` is not called.
- Calls into code not shown are parameters: what `qsort` returns, what `handle_exception` asks of each
  message of a batch, which threads the kernel lists, what registers print as.

Where the code and what it is meant for part, the code is modelled and the exact condition is proved:
`DisableExactIff`, `HitParksIff`, `SetFocusIff`, `NewThreadArmedIff`, `TemporarySharesNumber`,
`NoSpillIff`, `DecodeTestIff`, `PrintedValueIff`, `EvalExprLeaves`, `StartsTileIff`, `OutOfBoundsIff`,
`SignsIff`, `DistanceIff`, `ShrIff`, `ShraIff`, `StandsStillIff`, `DecodeComputes`, `OnesDecodeIff`,
`ChurnKeepsIff`, `StepOverRearmedIff`, `InterruptRearmedIff`, `WatchStopRearmedIff`,
`ReplyClearsIff`, `NeverPendingIff` and `NeverFreedIff`.

## Model

| member | source | states |
|---|---|---|
| `Engine.FreeReg` | source/breakpoint.c:15-46 | the register chosen is the least one no listed point owns; -1 exactly when all are owned |
| `Engine.First` | source/breakpoint.c:487-527 | the searches return the first listed breakpoint that answers, and none only if none does |
| `Engine.Find` | source/thread.c:121-194 | the search by port, ID, TID or focus returns the first thread that fits, and none only if none does |
| `EngineInvariants.SetStateKeeps` | source/breakpoint.c:207-272 | enabling or disabling any breakpoint, hardware or software, duplicate or not, keeps the engine invariant: code differs from the original only by BRK at listed software breakpoints, every breakpoint remembers the original word, each control register of each thread holds the word of the enabled point that owns it and targets that thread and else 0, no register has two owners, the counters equal the list lengths |
| `EngineInvariants.AddBpKeeps` | source/breakpoint.c:48-205 | setting a breakpoint keeps the invariant: its register is new, and it records the original word even on top of another breakpoint |
| `EngineInvariants.DeleteAtKeeps` | source/breakpoint.c:274-284 | deleting one keeps the invariant |
| `EngineInvariants.HitAtKeeps` | source/breakpoint.c:346-354 | a hit keeps the invariant, whether it counts or deletes the breakpoint |
| `EngineInvariants.SetStatesKeeps` | source/breakpoint.c:411-442 | the enable and disable loops keep the invariant |
| `EngineInvariants.DeleteFromKeeps` | source/breakpoint.c:459-485 | the delete loops keep the invariant |
| `EngineInvariants.DeleteFromSpares` | source/breakpoint.c:459-485 | deleting the current element while walking visits each once: exactly the chosen breakpoints go, the rest stay unchanged and in order, and num_breakpoints drops by as many |
| `EngineInvariants.DeleteAllRestores` | source/breakpoint.c:459-468 | from any state of the invariant, deleting all restores the code exactly and disarms every breakpoint register |
| `EngineInvariants.DisableExactIff` | source/breakpoint.c:257-272 | after a disable, BRK still marks exactly the enabled software breakpoints if and only if no other enabled one shares the address |
| `EngineInvariants.AddWpKeeps` | source/watchpoint.c:46-173 | setting a watchpoint keeps the invariant |
| `EngineInvariants.DeleteWpByIdKeeps` | source/watchpoint.c:203-243 | deleting a watchpoint keeps the invariant |
| `WatchBytes.SelectsBytes` | source/watchpoint.c:97-135 | the control word's byte select holds exactly the watched bytes of the aligned double word |
| `WatchBytes.NoSpillIff` | source/watchpoint.c:97-135 | no other field of the control word is touched exactly if the bytes lie in one double word |
| `NewPoints.AddBpBuilds` | source/breakpoint.c:48-205 | setting a breakpoint, said of the new state alone: for a known thread it is appended, a hardware one if and only if some register is owned by no listed one, then in the least such register, armed on the threads it is for with the code untouched, and else a software one with BRK at its address; an unknown thread changes nothing |
| `NewPoints.AddWpBuilds` | source/watchpoint.c:46-173 | a watchpoint is set exactly if its length is 1 to 8, its thread known, its data readable and a register free: in the least free one; else nothing changes |
| `NewPoints.WatchSlotSelects` | source/watchpoint.c:97-135 | the slot of a watchpoint selects, of the aligned double word, exactly the bytes watched, enabled in user mode for the accesses asked for |
| `NewPoints.BreakControlEnabled` | source/breakpoint.c:82-144 | the control word of a breakpoint is enabled, in user mode, on all four bytes, an unlinked address match, and has no other bit |
| `Exactness.RunsStayExact` | source/breakpoint.c:257-272 | in any run, any threads, whose breakpoints are set at free addresses: each code word is BRK exactly if an enabled software breakpoint is there, else the original |
| `Exactness.RunsMissNothing` | source/breakpoint.c:82-144 | at no point of such a run does any thread's turn execute an instruction that an enabled breakpoint guards, software or hardware |
| `Ids.RunsKeepIds` | source/breakpoint.c:146-154 | in any run, permanent breakpoints keep pairwise distinct numbers below the next one to be given out |
| `Ids.NumbersDistinct` | source/breakpoint.c:146-154 | that invariant says of any two listed permanent breakpoints that their numbers differ |
| `Ids.TemporarySharesNumber` | source/breakpoint.c:152-154 | a temporary breakpoint has the number of the permanent one set after it |
| `Stops.SetFocusIff` | source/thread.c:526-540 | after focusing a thread it is the focused one exactly if it was not before: refocusing clears the focus |
| `StopsInvariants.HandleKeeps` | source/exception.c:249-408 | handling any exception of any thread keeps the engine invariant |
| `StopsInvariants.PrepareKeeps` | source/cmd/stepcmd.c:10-62 | setting up a step into or over keeps it |
| `StopMeaning.BreakIs` | source/exception.c:150-200 | a breakpoint exception on any thread, any points: the debuggee goes on exactly if no breakpoint is listed there or the ordinary one found first is a software one for another thread; a stepping breakpoint there is gone; the ordinary one, unless passed by, counts the hit and, if a software one, the first of its number is disabled; the thread's step bit is set and its notes say so; nothing else changes but code and breakpoint registers |
| `StopMeaning.StepIs` | source/exception.c:202-247 | a step exception on any thread: it goes on exactly behind a breakpoint without the user stepping, or while a step over still waits for its temporary breakpoint; ordinary breakpoints are enabled, a user's step counts as a hit of one it ends at, the notes are cleared |
| `StopMeaning.AccessNoted` | source/exception.c:334-352 | an access to watched data is noted and the thread goes on by one instruction |
| `StopMeaning.AccessCounted` | source/exception.c:115-148 | the step behind it: the first watchpoint on the double word counts the hit and the debuggee stops; it goes on exactly if there is none |
| `Transparency.OtherStops` | source/exception.c:398-407 | any other exception stops the debuggee with points, code and registers as they were, and gives its thread the focus; a port that is not listed changes nothing, and resumes exactly if no thread has the focus |
| `Transparency.SignalStopsIff` | source/exception.c:299-333 | after a signal the same, but it runs on exactly if the signal is not set to stop |
| `Transparency.Transparent` | source/exception.c:150-247 | transparency: whatever is set, deleted, continued, stepped or interrupted and whatever exceptions arrive, on any number of threads in any interleaving, the instructions executed and the machine state are those of a native run of the original program |
| `Progress.RearmInvariant` | source/exception.c:202-235 | in runs of set, delete, continue and step-into on one thread a breakpoint is disabled only while the thread's step bit is pending |
| `Progress.StepStopEnables` | source/breakpoint.c:427-442 | after a handled step exception all breakpoints are enabled; it resumes by itself exactly when it was stepping past a breakpoint and not for the user |
| `Progress.HitParksIff` | source/exception.c:150-200 | a hit uncovers the original word exactly if the breakpoint found is a software one or the word was not covered |
| `Progress.HitThenContinue` | source/cmd/misccmd.c:351-369 | after a hit, whatever is set elsewhere or deleted meanwhile, one or all, continue executes exactly one native instruction before another stop is possible, and all breakpoints are enabled then |
| `Progress.HiddenBrkIsStuck` | source/breakpoint.c:183-190 | otherwise, a hardware breakpoint listed before a software one at its address, the thread traps again at once with nothing executed |
| `StepCommands.StepUncoversAll` | source/breakpoint.c:529-544 | setting up a step puts the whole original code back while no stepping breakpoint is listed |
| `StepCommands.StepExecutesOne` | source/cmd/stepcmd.c:10-62 | a step into executes exactly one native instruction, whatever breakpoints are at it, then stops with all breakpoints enabled |
| `StepCommands.StepOverPlants` | source/cmd/stepcmd.c:19-53 | stepping over a call adds one temporary breakpoint, for this thread, right behind it, and changes no other breakpoint but to disable it |
| `StepCommands.AtCallIff` | source/cmd/stepcmd.c:19-53 | a step over sees a call exactly at an original word that is BL or a call through a register other than X30, behind a breakpoint or not |
| `StepCommands.StepOverIff` | source/cmd/stepcmd.c:10-62 | so, in any state of the invariant with no stepping breakpoint listed or noted, it plants the breakpoint behind such a call and else steps one instruction |
| `StepCommands.StepOverReturns` | source/exception.c:150-200 | when the call returns there the temporary breakpoint is gone, software or hardware: the original word is back, or its register is armed on no thread it was for; the thread will step past it; an ordinary breakpoint at the same address counts the hit, and the debuggee goes on by itself exactly if that one is a software breakpoint for another thread |
| `StepCommands.InterruptRearmedIff` | source/cmd/misccmd.c:437-457 | after an interrupt, which clears the step bits, breakpoints are re-armed exactly if all were enabled |
| `StepCommands.StepOverRearmedIff` | source/cmd/stepcmd.c:19-53 | after setting up a step over a call breakpoints are re-armed exactly if a step is pending already or none is listed |
| `StepCommands.StepOverThenContinue` | source/cmd/misccmd.c:351-369 | step over a call, stop on a signal before it returns, continue: the debuggee runs with every breakpoint disabled and no step pending |
| `StepCommands.WatchStopRearmedIff` | source/exception.c:356-360 | the step behind a watched access enables nothing: breakpoints stay re-armed exactly if all were enabled |
| `StepCommands.StepAtWatchDisables` | source/exception.c:356-360 | a step into that touches watched data executes its instruction and ends with every breakpoint disabled and no step pending, stopped if a watchpoint is found and running on if not |
| `Detach.AttachedOk` | source/cmd/misccmd.c:55-277 | an attached debuggee without points and armed registers satisfies the three invariants runs start from: the engine, exact code, distinct numbers |
| `Detach.DetachLeavesNoTrace` | source/dbgops.c:80-97 | after any run, detaching leaves the original code, no armed register on any thread and no pending step |
| `DebuggeeObjects.Debuggee.FindReadyBpReg` | source/breakpoint.c:15-46 | the search loop finds what the specification's least free register is |
| `DebuggeeObjects.Debuggee.AddBreakpoint` | source/breakpoint.c:286-344 | on the object: the list, the threads' registers, the code and the counters become those of the specified new state; an unknown thread changes nothing |
| `DebuggeeObjects.Debuggee.SetBpState` | source/breakpoint.c:257-272 | on the object: the new state is the specified one, registers of all targeted threads included |
| `DebuggeeObjects.Debuggee.DeleteBp` | source/breakpoint.c:274-284 | on the object: disabled, unlinked, counted down |
| `DebuggeeObjects.Debuggee.SetBpStates` | source/breakpoint.c:411-442 | the walking loop reaches the specified state |
| `DebuggeeObjects.Debuggee.DeleteBps` | source/breakpoint.c:459-485 | the walking loop that deletes under itself reaches the specified state |
| `DebuggeeObjects.WalksAgree` | source/breakpoint.c:459-485 | what the delete loop leaves of the breakpoints is what a walk that deletes under itself leaves of the list's nodes |
| `DebuggeeObjects.Debuggee.HitBp` | source/breakpoint.c:346-354 | on the object: the hit as specified |
| `DebuggeeObjects.Debuggee.SetBpStateById` | source/breakpoint.c:379-409 | by number; nothing changes if there is none, which is reported |
| `DebuggeeObjects.Debuggee.DeleteBpById` | source/breakpoint.c:356-370 | by number; nothing changes if there is none, which is reported |
| `DebuggeeObjects.Debuggee.AddWatchpoint` | source/watchpoint.c:245-279 | on the object: the new state is the specified one; a bad length, an unknown thread, data that cannot be read or a full register file changes nothing |
| `DebuggeeObjects.Debuggee.DeleteWatchpoint` | source/watchpoint.c:295-308 | by number; the registers of its target are cleared |
| `DebuggeeObjects.Debuggee.FocusThread` | source/thread.c:526-540 | on the object: the focus moves as specified |
| `StopHandling.HandleException` | source/exception.c:249-408 | on the object: the whole handler reaches the state and the resume verdict of the specification |
| `StopHandling.HandleHitBreakpoint` | source/exception.c:150-200 | on the object: the breakpoint handler does |
| `StopHandling.HandleStep` | source/exception.c:202-247 | on the object: the single-step handler does |
| `StopHandling.HandleHitWatchpoint` | source/exception.c:115-148 | on the object: the watchpoint handler does, as far as hits, notes and the verdict go |
| `StopHandling.PrepareStep` | source/cmd/stepcmd.c:10-62 | on the object: the step set-up does |
| `Churn.ChurnKeepsTargeting` | source/dbgops.c:300-390 | for every list of live threads, whichever have come, gone and changed places: after the thread list is rebuilt, the focus given to the first thread if its own has gone, and the points adjusted, every register of every thread is known; every surviving thread-specific hardware point carries its TID's current ID and, if enabled, is armed on that thread alone; no register is armed that has lost its point; the lists are the old ones without the hardware points of dead threads; code and counters are sound; some thread has the focus |
| `Churn.ChurnKeepsIff` | source/dbgops.c:300-329 | the exact condition for the invariant: no disabled hardware breakpoint is written into registers as if enabled (one for all threads while threads are added, or one whose thread is still there under another ID), and no unseen thread stands at an old position while an enabled point for all threads is listed |
| `Churn.ReplacedThreadIsMissed` | source/thread.c:485-520 | one thread dies and another is born between two updates: a breakpoint for all threads misses the new one |
| `Churn.AdjustedTargetByTid` | source/dbgops.c:277-298 | a point survives exactly if its TID is still there, and is then aimed at the ID that thread has now |
| `Churn.NewThreadArmedIff` | source/thread.c:485-520 | a thread's registers change in the rebuild only if it stands beyond the old list's length: it is new by position alone |
| `Churn.ReaimKeeps` | source/dbgops.c:235-275 | moving a point from a wrong thread to the right one arms it there alone, enabled or not, and keeps every other register |
| `Churn.RebuiltIs` | source/thread.c:369-524 | each thread of a rebuilt list is numbered by its place, keeps the notes of the first old thread with its port, none if there is none, and the focus if the last focused one had its port |
| `Churn.RetargetIs` | source/dbgops.c:235-298 | retargeting changes the point's target and the registers of the two threads, and nothing else |
| `Churn.DropDead` | source/dbgops.c:189-201 | deleting the point of a dead thread leaves no register armed for it and keeps every other one |
| `ThreadUpdating.UpdateThreadList` | source/thread.c:369-524 | on the object: the rebuild loop reaches the specified threads |
| `ThreadUpdating.AdjustBreakpoints` | source/dbgops.c:300-329 | on the object: the adjust loop, which deletes under itself, reaches the specified state |
| `ThreadUpdating.AdjustWatchpoints` | source/dbgops.c:331-360 | the same for watchpoints |
| `ThreadUpdating.UpdateAll` | source/dbgops.c:366-395 | on the object: rebuilding, refocusing and adjusting reach the state of the specification |
| `LinkedLists.List.Add` | source/linkedlist.c:30-49 | the datum goes to the end; the other nodes stay |
| `LinkedLists.List.Delete` | source/linkedlist.c:67-95 | the first node holding the datum is unlinked, and keeps its own link to the node behind it |
| `LinkedLists.DeleteMatching` | source/breakpoint.c:470-485 | a loop that deletes the element it stands on and then follows that element's link visits every element once and leaves exactly the others in order |
| `Branch.BranchInfo.IsBranch` | source/disas/branch.c:88-146 | the record is filled in step by step as the decoder specifies; other words are refused |
| `Branch.DecodeB` | source/disas/branch.c:7-35 | every B and BL decodes to its kind, call bit and signed offset over the full 28-bit range |
| `Branch.DecodeBCond` | source/disas/branch.c:42-85 | every B.cond decodes to its condition and offset over the full 21-bit range; the reserved 15 reads as AL |
| `Branch.DecodeCompare` | source/disas/branch.c:100-146 | every CBZ and CBNZ decodes to its register, width and offset |
| `Branch.DecodeTestIff` | source/disas/branch.c:121-123 | a TBZ or TBNZ offset survives decoding exactly if it lies in [0, 2048): the mask drops five of its bits |
| `Branch.CallIffBL` | source/disas/branch.c:112-120 | among branches with an immediate offset exactly BL is a call |
| `Branch.DecodeRegister` | source/disas/branch.c:112-137 | every BR, BLR and RET, plain or authenticated, decodes to its register, and is a call exactly for BLR and its authenticated forms |
| `Branch.KindByByte` | source/disas/branch.c:7-35 | the kinds by the word's highest byte; no other word is a branch |
| `Branch.CallWordIff` | source/disas/branch.c:88-146 | a word is decoded as a call not through X30 exactly if its bits say BL, or a register branch that links with another register |
| `Branch.CallsOver` | source/disas/branch.c:112-130 | of the encoded branches that is BL and the calls through a register other than X30 |
| `ExprTree.ApplyComputes` | source/expr.c:17-38 | each operation on integers: the long that the sum, left minus right or the product becomes modulo 2^64; the quotient toward zero, likewise; an error exactly on division by zero |
| `ExprTree.LitMeans` | source/expr.c:307-338 | a literal is read exactly if it is spelled as a decimal, octal or hexadecimal numeral, as the positional value of its figures |
| `ExprTree.CanonicalIff` | source/expr.c:40-48 | the trees treated are those whose text needs no other brackets by the usual precedence |
| `ExprMachine.InvalidIff` | source/expr.c:97-118 | two operators in a row are refused unless the second is a minus |
| `ExprMachine.InARowIsError` | source/expr.c:268-286 | such a text is an error before anything is evaluated |
| `ExprTree.RunReads` | source/expr.c:268-371 | reading the text of any tree, implied multiplications left in it or not, takes the two stacks where the tree's structure says |
| `ExprTree.AfterOwes` | source/expr.c:247-263 | the operators still pending there come to the operands the tree leaves and pop none of those below, also when a division by zero stops it |
| `ExprTree.TextNotRefused` | source/expr.c:270-286 | no tree's text is refused before evaluation |
| `ExprTree.EvaluateIsValue` | source/expr.c:268-412 | on the text of any tree of literals, unary minus, + - * / and brackets evaluate returns what the tree stands for, said of integers without the evaluator's own operations, and ends with exactly one operand; it sets an error exactly if some division is by zero; no empty stack is popped either way |
| `ExprTree.EvaluateLeaves` | source/expr.c:268-412 | with implied multiplications in the text: the evaluator takes each bracket as an operand of its own, leaves one operand more for each of them and returns the last, or an error exactly on a division by zero among the operations it makes; no empty stack is popped either way |
| `ExprSub.ReplaceSpends` | source/expr.c:158-219 | the termination measure: each replacement takes one '$' from the text still to be read |
| `ExprSub.PrintedValueIff` | source/convvar.c:241-265 | printing an integer variable and reading it back restores it exactly if it is not LONG_MIN |
| `ExprSub.ValueTextIs` | source/convvar.c:255-262 | the printed form: a sign if negative and the magnitude in lower-case hexadecimal without leading zeros, 0 for zero |
| `ExprSub.SubIsSubst` | source/expr.c:158-219 | substituting in the text of a tree is substituting in the tree |
| `ExprSub.SubstValue` | source/expr.c:158-219 | splicing signed values in as text disturbs neither precedence nor value |
| `ExprSub.SpreadIsExplicit` | source/expr.c:224-241 | on the text of a tree, the pass makes explicit exactly the implied multiplications behind a decimal digit |
| `ExprSub.ExplicitPlainIff` | source/expr.c:224-241 | the pass leaves none for the evaluator exactly if all of them follow a decimal digit |
| `ExprSub.LetterJoinedIsDropped` | source/expr.c:232-233 | otherwise a factor is lost: behind a literal ending in a letter, or behind a bracket, only the value of the bracket that follows remains |
| `ExprSub.ProductLosesLeft` | source/expr.c:232-233 | behind a product or quotient its left side is lost instead: 0xb*0xa(2) is 20 |
| `ExprSub.EvalExprLeaves` | source/expr.c:417-450 | what eval_expr returns on the text of any tree with variables bound to longs other than LONG_MIN: the last of the operands left, which are one exactly if every implied multiplication follows a decimal digit, and else one more for each that does not |
| `ExprSub.EvalExprIsValue` | source/expr.c:417-450 | so on the text of any such tree whose implied multiplications follow digits, blanks around it, eval_expr returns what the tree stands for, said of integers, and an error exactly on a division by zero |
| `ExprSub.BlankIsPopped` | source/expr.c:417-450 | no text at all is an error; a text of blanks is not: it yields what popping an empty stack does |
| `ExprEval.ProcessStacks` | source/expr.c:247-263 | on the stack objects: one reduction |
| `ExprEval.EvaluateText` | source/expr.c:268-412 | the loop over two stack objects returns what the machine returns |
| `ExprEval.ScanNumber` | source/expr.c:307-338 | the digit loop settles base, extent and value of a number |
| `ExprPipeline.SubConvVars` | source/expr.c:158-219 | the loop that cuts and inserts in the buffer computes the substitution and terminates |
| `ExprPipeline.AddMults` | source/expr.c:224-241 | the loop that inserts in the buffer computes the pass |
| `ExprPipeline.EvalExprText` | source/expr.c:417-450 | the whole of eval_expr over buffers and stacks |
| `StrExt.Str.Insert` | source/strext.c:61-85 | inserts the text at the place, or changes nothing if it is out of range |
| `StrExt.Str.Cut` | source/strext.c:88-112 | removes exactly the range if it is there |
| `StrExt.Str.Clean` | source/strext.c:155-167 | removes the blanks at both ends |
| `StackObjects.Stack.Push` | source/stack.c:17-25 | the contents grow by the datum |
| `StackObjects.Stack.Pop` | source/stack.c:27-32 | the last datum comes off; an empty stack yields the error value and stays empty |
| `ConvVars.PrintedParses` | source/convvar.c:155-191 | assigning the printed form of any long reads it back, LONG_MIN included |
| `ConvVars.PrintedIsInteger` | source/convvar.c:127-153 | such a text is taken for an integer |
| `ConvVars.QuotedIsText` | source/convvar.c:173-180 | a text in quotation marks stands for what is between them |
| `ConvVars.KindOfIs` | source/convvar.c:127-153 | the kind: nothing is void, a leading quotation mark a string, else two points are refused, one makes a floating-point number and none an integer |
| `ConvVars.MeantIs` | source/convvar.c:155-191 | what any text stands for and whether it is refused: an integer exactly if it is spelled to its end by white space, a sign, a prefix and at least one figure of its base, then saturated to a long |
| `Strtol.LongOfSpelled` | source/reg.c:385-428 | strtol with base 0 reads any text as it is spelled: white space, a sign, a prefix naming the base, figures of that base, saturated |
| `ConvVars.Variables.Set` | source/convvar.c:284-305 | the named variable then stands for the text assigned and all others are unchanged; it fails exactly on a refused name, on more than one point or on a malformed integer, as strtoll with base 0 reads it, and the list stays sound unless an existing variable is given a malformed integer, which releases it while listed |
| `ConvVars.Variables.Lookup` | source/convvar.c:220-239 | the listed variable of that name, none if there is none or the name is a register's |
| `ConvVars.Variables.StrVal` | source/convvar.c:241-265 | the text of the variable's value, in the printed form of an integer |
| `Uleb.DecodeEncode` | source/symbol/image.c:21-40 | every delta below 2^31 decodes from its encoding, consuming exactly its bytes |
| `Uleb.DecodeGroup` | source/symbol/image.c:21-40 | so does any group of up to five bytes with redundant padding bits |
| `Uleb.OrAdds` | source/symbol/image.c:30 | or-ing a part in above the bits already there adds it |
| `Uleb.DecodeUleb` | source/symbol/image.c:21-40 | the decoding loop computes this and moves the pointer behind the group |
| `FunctionStarts.StartsAreTable` | source/symbol/image.c:181-218 | the table read from any groups, zero padding anywhere, has its starts at the slid partial sums, each length the next delta, the last up to the text end, kept in an int |
| `FunctionStarts.StartsTileIff` | source/symbol/image.c:213-218 | strictly increasing starts whose lengths leave no gap up to the slid text end, exactly if the last function is shorter than 2^31 bytes |
| `StartsReading.ReadFxnStarts` | source/symbol/image.c:181-218 | the pointer loop over entry objects, patching the previous one, builds that table |
| `DynArray.Array.Insert` | source/array.c:52-69 | the contents grow by the element, through doubling, unless the capacity is 0, which shrinking an empty array makes it: then the element is written outside the array |
| `SymbolIndex.FloorSearchIsFloor` | source/symbol/dbgsymbol.c:141-178 | on sorted starts the search is exactly floor search: the last start not above the address, -1 only if all are above |
| `SymbolIndex.LookupRefinesScan` | source/symbol/dbgsymbol.c:199-294 | a function is returned exactly if some function of any image starts at or below the address, and it is one with the greatest such start over all images |
| `SymbolIndex.OutOfBoundsIff` | source/symbol/dbgsymbol.c:219-252 | a slot before the array is read exactly if no function starts at or below the address and some image with a single function is loaded at or below it |
| `SymbolIndex.SignsIff` | source/symbol/dbgsymbol.c:180-197 | candidates are sorted by signed and searched by unsigned starts: with all of them at or below the address, the nearest is found exactly if they lie on one side of 2^63 |
| `Symbolication.LookupFindsFunction` | source/symbol/image.c:514-547 | end to end, from encoded deltas to the answer: for images with disjoint text the function whose range holds the address is found |
| `Symbolication.DistanceIff` | source/symbol/dbgsymbol.c:290-291 | for every address from an image's first function to its text end some function is found, and the distance is exact exactly if it fits 32 bits |
| `SymbolLookup.Bsearch` | source/symbol/dbgsymbol.c:141-178 | the recursion on array bounds computes the search |
| `SymbolLookup.GoodCombos` | source/symbol/dbgsymbol.c:204-237 | the loop over the images collects one candidate each at most |
| `SymbolLookup.BestCombo` | source/symbol/dbgsymbol.c:239-252 | the choice among the sorted candidates |
| `SymbolLookup.BuildIndex` | source/symbol/image.c:514-547 | the symbol-adding loop builds the index |
| `DwarfCompile.CodeRuns` | source/symbol/dexpr.c:501-1098 | decoding the code of any arithmetic, logic, memory and conditional tree, anywhere in a list, leaves its value on top, all lower slots unchanged and its text in the buffer, exactly if the value is defined, the evaluation fits the 512 slots and the text of the operations run fits the 1024 characters; else it faults |
| `DwarfCompile.DecodeComputes` | source/symbol/dexpr.c:501-1098 | so decoding from the start returns the tree's value exactly if it is defined and the text fits |
| `DwarfCompile.TextOutgrows` | source/symbol/dexpr.c:504-508 | the slots never decide: an evaluation that needs more than 512 has overflowed the text buffer before |
| `DwarfCompile.BoundedDecodes` | source/symbol/dexpr.c:504-508 | a static bound on the text suffices: the sum over the longest way |
| `DwarfCompile.ShortDecodes` | source/symbol/dexpr.c:1086-1087 | any code of up to 26 operations decodes, for none writes more than 38 characters |
| `DwarfCompile.OnesDecodeIff` | source/symbol/dexpr.c:1086-1087 | a sum of n ones, which needs two slots, decodes exactly up to n = 103: from 104 on the names of its additions overflow the buffer |
| `DwarfCompile.FetchRuns` | source/symbol/dexpr.c:531-546 | deref leaves the address below the data, so that swap and drop are needed to replace it |
| `DwarfCompile.BranchRuns` | source/symbol/dexpr.c:795-817 | bra leaves its operand, taken or not |
| `DwarfMeaning.ApplyBinaryMeans` | source/symbol/dexpr.c:671-872 | the 17 binary operations, said of integers and bits: sums, differences and products modulo 2^64, quotients toward zero and remainders as C takes them, bitwise operations by bits, shifts as the code makes them, comparisons; undefined exactly by zero and for shifts out of range |
| `DwarfMeaning.ApplyUnaryMeans` | source/symbol/dexpr.c:663-732 | abs, neg and not, said likewise |
| `DwarfMeaning.PushValueMeans` | source/symbol/dexpr.c:547-972 | what each push pushes: literals, constants cut to their width and sign, registers, registers and offsets, the frame base |
| `DwarfMeaning.ExecMeans` | source/symbol/dexpr.c:501-1098 | every operation that does not jump does on the slots what it means on a stack of longs, or faults exactly if there is no room or no result |
| `DwarfMeaning.OpOfIff` | source/symbol/dexpr.c:516-1084 | the dispatch reads a code with its operands as an operation exactly if it encodes it |
| `DwarfMeaning.TextCounts` | source/symbol/dexpr.c:516-1084 | the characters counted are those of the mnemonics and numbers written |
| `DwarfMeaning.EncodedDecodes` | source/symbol/dexpr.c:501-1098 | decoding any encoding of a tree's code yields what the tree stands for, said of integers and bits, exactly if that is defined and the text fits |
| `Dwarf.ForwardEnds` | source/symbol/dexpr.c:872-889 | with forward jumps only, whatever the operations, decoding ends within as many steps as operations are left |
| `Dwarf.JumpLands` | source/symbol/dexpr.c:795-817 | where a taken jump leads: on from itself or back from the operation behind it, by operations; exactly when it leaves the list and faults |
| `Dwarf.StandsStillIff` | source/symbol/dexpr.c:795-817 | decoding stands still exactly at a taken jump by 0 or -1: jumps count operations, forward from the jump itself and backward from behind it |
| `Dwarf.StandsStillForever` | source/symbol/dexpr.c:872-889 | and then never ends |
| `Dwarf.ShrIff` | source/symbol/dexpr.c:768-776 | shr is the standard's logical shift (section 2.5.1.4 of DWARF version 4) exactly on non-negative values or shifts by 0 |
| `Dwarf.ShraIff` | source/symbol/dexpr.c:777-785 | shra is the standard's arithmetic shift exactly on non-negative values and multiples of the divisor |
| `LocationLists.CopyLocDesc` | source/symbol/dexpr.c:438-467 | the copy is fresh, linked both ways with prev and next inverse, and holds the same operations in the same order |
| `LocationLists.CopyDecodesSame` | source/symbol/dexpr.c:438-467 | decoding the copy runs exactly as decoding the original, backward jumps included |
| `LocationLists.AddAdditional` | source/symbol/dexpr.c:404-414 | the node goes to the end and the list stays linked both ways |
| `LocationLists.KeptInBounds` | source/symbol/dexpr.c:29-35 | a copy covers the same addresses |
| `LocationLists.CoversExactly` | source/symbol/dexpr.c:29-35 | a bounded description covers the addresses from lopc up to hipc, that one excluded, an unbounded one all |
| `LocationDecoding.Decode` | source/symbol/dexpr.c:501-1098 | the loop over node pointers, the stack array and the length of the text buffer runs as the machine does |
| `LocationDecoding.JumpBy` | source/symbol/dexpr.c:795-817 | walking the links lands where the jump says, or off either end |
| `Exceptions.EveryRunKeeps` | source/servers.c:29-132 | in every interleaving of the server's steps with replies from commands: received is replied, then queued, then held, in order; the server judges a prefix of its batch |
| `Exceptions.RepliesInOrder` | source/dbgops.c:62-78 | the k-th reply goes to the k-th exception received |
| `Exceptions.ReplyClearsIff` | source/dbgops.c:62-78 | a resume leaves nothing pending exactly if the flag is set or nothing was queued |
| `Exceptions.BatchesAreAnswered` | source/servers.c:58-90 | when no command replies while a batch is gathered, the flag covers the queue at every point: every resume leaves nothing pending |
| `Exceptions.NeverPendingIff` | source/servers.c:58-90 | the exact condition: at every point of a run a reply would leave nothing pending, exactly if no batch gets another exception after a command has replied to its first ones |
| `Exceptions.RacingReplyStrands` | source/servers.c:63-90 | a reply between a batch's first and second exception leaves the second unanswered: the flag is set for the first only |
| `Exceptions.NeverFreedIff` | source/dbgops.c:68-71 | a reply frees messages that the server's own queue also holds: none is freed under it, at any point of a run, exactly if no command replies from the time a batch's first exception is shared until its last is judged |
| `Exceptions.RacingReplyFrees` | source/servers.c:92-102 | a reply in that time leaves the server to judge a message that has been freed |
| `Exceptions.AutoResumeIff` | source/servers.c:92-120 | the server resumes by itself exactly if every exception of the batch asked to |
| `Exceptions.AutoResumeAnswersAll` | source/servers.c:119-120 | and then everything received has been replied to |
| `ExceptionServing.Server.ReplyToAll` | source/dbgops.c:62-78 | the dequeuing loop answers every queued message in order and frees it, if the flag is set; the messages freed are at every point those replied to |
| `ExceptionServing.Server.HandleBatch` | source/servers.c:92-120 | the handling loop judges the whole batch if none of it was freed, reading no freed message; one refusal is enough |
| `ExceptionServing.Server.Receive` | source/servers.c:39-61 | a message received joins the server's own queue |
| `ExceptionServing.Server.StopGathering` | source/servers.c:71-95 | when no more messages come the handling begins with the wish to resume |
| `ExceptionServing.Server.EnqueueLocked` | source/servers.c:63-66 | the locked region adds one message and sets the flag for a batch's first |
| `QueueObjects.Queue.Enqueue` | source/queue.c:16-25 | the contents grow by the datum |
| `QueueObjects.Queue.Dequeue` | source/queue.c:27-43 | the first datum comes off and the rest moves up; an empty queue yields nothing |
| `VectorReg.SetPrintedRestores` | source/reg.c:160-182 | for every 128-bit value: setting a register to the text printed for it restores the value |
| `VectorReg.ByteTextIs` | source/reg.c:160-182 | a byte is printed as 0x and its two lower-case hexadecimal figures |
| `VectorReg.SetReadsBytes` | source/reg.c:385-444 | any list of byte tokens: the last sixteen count, the last most significant, and a shorter list is filled up with its first |
| `VectorReg.PrintQuad` | source/reg.c:160-182 | the two byte loops print the text |
| `VectorReg.ReadTokens` | source/reg.c:404-428 | the loop that cuts the text at its last blank collects both halves |
| `VectorReg.SetVector` | source/reg.c:385-444 | the register becomes the value read, each token as strtol with base 0 reads it, and the others stay; text without braces or with nothing between changes nothing |

## Left out

- Mach, ptrace, kqueue, sysctl, pthreads, signals and the attach and detach plumbing: the environment of the model.
- Code is modelled by instruction word, so breakpoints at unaligned addresses, whose words overlap, are not covered.
- A run handles each exception as a batch of its own, and the thread list does not change within it; a change of threads is `Churn`.
- Progress.RearmInvariant: is about runs of one focused thread with breakpoints for all threads and without watchpoints, steps over calls and interrupts: what those paths do is `StepCommands.InterruptRearmedIff`, `StepOverRearmedIff` and `WatchStopRearmedIff`.
- ThreadUpdating.UpdateThreadList: for a software breakpoint for all threads the code writes register -1 of a new thread, which the model leaves out.
- Churn.ChurnKeepsTargeting: thread-specific software breakpoints of dead threads stay listed, as in the code.
- StopHandling.HandleHitWatchpoint: does not model the watched data that is compared and printed.
- Stop descriptions, warnings, prompts, disassembly and the other output of commands.
- Registers, floating-point and string variables in expressions; the register part of a substitution is a parameter that names no further variable, because a string holding '$' is scanned again and may never end.
- ExprSub.EvalExprIsValue: says nothing about blanks inside an expression (a minus behind a blank is read as binary), a bare "0x" prefix (what follows it is read by strtol with its sign), unmatched brackets and missing operands, which are accepted silently.
- ConvVars.Variables.Set: keeps the text of a floating-point number as it is, without reading it; the table of register names is a parameter. For a value that is a lone quotation mark the code also writes before its buffer (source/convvar.c:176-178), which is not modelled.
- Uleb.DecodeEncode: bounds deltas below 2^31, because the code shifts in a C int.
- SymbolLookup.BuildIndex: leaves out the names of symbols: matching starts with the symbol table, reading strings and numbering unnamed functions.
- LocationDecoding.Decode: runs a given number of operations, because a list may jump backward for ever.
- In location expressions: the text that is built beside the result, of which the length is modelled; the value of the register a frame base names, which is a parameter; pieces, calls and the other operations the code does not implement, which do nothing in the model as in the code.
- The libdwarf walk in source/symbol/die.c, source/symbol/compunit.c and source/symbol/sym.c, and the source lines found with it: libdwarf is not part of this model.
- VectorReg.SetReadsBytes: states the value for tokens printed as two-digit hexadecimal bytes; what other texts are read as is `SetQuad`.
- Command parsing, tab completion, tracing, signal settings, memory commands and the deletion of variables: thin over libraries or tables.
- Error-path frees, lock order and the array and list functions without callers.

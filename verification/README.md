# Verified model of Lightbeam and three Wasmtime cores

This project models, in Dafny, the parts of the repository that transform or lay out code and
data, and proves what they preserve.

* **Wasm to Microwasm** (`Wasm`, `Microwasm`, `Converter`, `ConverterFacts`, `ConverterNames`,
  `Simulation`, `Preservation`, `LoopResults`, `Typing`, `MicrowasmConv`). Structured function bodies with the
  validation of section 3.3.5 and the execution of section 4.4.5 of the WebAssembly Core
  Specification 1.0; the flat operator stream with its one-stack machine; the converter as a state
  machine over operators with its dead-code mode; and the theorem that conversion preserves meaning.
  `MicrowasmConv.Iterator` is the converter in the form of the source, an object that is advanced.
* **The block driver** (`Streams`, `BranchSides`, `Driver`). What holds of every emitted stream, and
  why the driver may delete table entries, drop blocks without callers, leave out jumps and rely on
  the kinds of calling conventions it meets.
* **The register allocator** (`Locations`, `Shuffle`, `FrameFacts`, `Allocator`, `StraightLine`).
  `Allocator.Context` emits instructions; its contracts speak about the machine these instructions
  produce from an arbitrary start machine. A location denotes a value; the pins of a register are
  its count minus its reservation and its stack entries. Each operator also says what it leaves alone
  (`Locations.Confined`): VMCTX, the registers that a function must preserve, and the words of the frame.
* **Unsigned conversions** (`StickyBit`), **VMContext layout and image** (`Bytes`, `VmOffsets`,
  `VmImage`), **code memory** (`CodeMemory`) and **debug-info closure** (`DebugGc`).

Where the code and its comments disagree the model follows the code. The comment on `BrIf` says the
`else_` label is taken on true; the fields, the converter and the backend take `then`. The comment on
`BrTable` clamps the index to the table; the code has a separate default. The comment on `Label` wants a
preceding `Br` or `BrTable`; the converter also places labels after `BrIf` and `Unreachable`.

Some promises turn out to hold under a condition, which the model states exactly, with an input at
which it fails:

* a branch to a loop with a result (`Simulation.LoopJumpShape`; `LoopResults.LoopResultMiscompiled`);
* the fall-through side of a conditional branch to a new block, which needs at most eight stack
  entries (`StraightLine.FreshBranch`; `FrameFacts.NineEntries`);
* a conditional branch to a block that has its convention already, whose drop range the driver does
  not apply (`StraightLine.PassedIsKept`; `StraightLine.IgnoredExample`);
* shrinking the frame by one word (`Allocator.Context.SetStackDepth`; `FrameFacts.CrampedExample`);
* the other stack entries during an unsigned conversion (`Allocator.Context.ConvertFromU64`;
  `FrameFacts.ConvertExample` with `Allocator.Context.PickThenConvert`);
* byte-sized register counters (`FrameFacts.CountersFit`; `FrameFacts.ByteOverflows`);
* the alignment of global definitions (`VmOffsets.DisjointIff`; `VmOffsets.WrapExample`).

`dafny verify dfyconfig.toml` checks everything.

## Model

| member | source | states |
|---|---|---|
| `Preservation.MeaningPreserved` | lightbeam/src/microwasm.rs:1428-1788 | for every validated body whose branches to result-typed loops are safe (see Left out), every meaning of the plain operators and all arguments: the body returns or traps exactly when the emitted stream does, with the same values and store, so one diverges exactly when the other does; the stream machine never gets stuck; declared locals start at zero in the source semantics |
| `Preservation.FuncSim` | lightbeam/src/microwasm.rs:1428-1788 | the fuel-indexed form: with any fuel the source outcome is reached by the machine, and running out of fuel means the machine has made at least that many steps and still runs |
| `Preservation.Backward` | lightbeam/src/microwasm.rs:1428-1788 | a finished machine run of k steps is the source's outcome within fuel k, and is not stuck |
| `Preservation.PlainLoopsSuffice` | lightbeam/src/microwasm.rs:1556-1573 | bodies whose loops have no result meet either loop condition whenever they are valid |
| `Typing.StandardAccepted` | wasmtime-api/src/module.rs:199-201 | the validation algorithm the theorems assume accepts every body that the typing rules of the standard accept, unreachable code included |
| `Typing.StandardSuffices` | wasmtime-api/src/module.rs:199-201 | so a body that is valid by the standard and has no loop with a result is among the preserved ones |
| `LoopResults.LoopResultMiscompiled` | lightbeam/src/microwasm.rs:1429-1446 | a valid body with a result-typed loop, branched to with an operand above the loop's entry height, returns 7 in Wasm and 0 in the emitted stream |
| `Simulation.LoopDropShape` | lightbeam/src/microwasm.rs:1429-1446 | the drop range of a branch to a loop keeps exactly the loop's arguments if and only if the loop has no result or nothing lies above its entry height |
| `Simulation.LoopJumpShape` | lightbeam/src/microwasm.rs:1429-1446 | what the jump takes after that drop is the loop's arguments, whatever the values, if and only if the loop has no result, nothing lies above its entry height, or it has no arguments: exactly the branches the safe loop condition accepts |
| `Simulation.DropShape` | lightbeam/src/microwasm.rs:1429-1446 | applying the `to_drop!` range leaves exactly the frame's first `arguments` entries followed by the top `returns` entries |
| `Simulation.BranchSim` | lightbeam/src/microwasm.rs:1429-1446 | at every branch of validated code the stack after the drop range ends with the target block's declared parameters, with nothing below them unless it is a loop without arguments, and the jump lands on its label; for the function frame the top entries are the results |
| `Simulation.BrSim` | lightbeam/src/microwasm.rs:1680-1691 | `br`: drop and branch simulate the source branch |
| `Simulation.BrIfSim` | lightbeam/src/microwasm.rs:1692-1711 | `br_if`: taken and not taken, with a fresh fall-through block |
| `Simulation.BrTableSim` | lightbeam/src/microwasm.rs:1712-1742 | `br_table`: every index and the default arrive where the source says |
| `Simulation.ReturnSim` | lightbeam/src/microwasm.rs:1743-1754 | `return` leaves with the results |
| `Simulation.GetLocalSim` | lightbeam/src/microwasm.rs:1765-1771 | `get_local` is a `Pick` of the local's depth |
| `Simulation.SetLocalSim` | lightbeam/src/microwasm.rs:1772-1779 | `set_local`, as swap and drop, assigns the local and nothing else |
| `Simulation.TeeLocalSim` | lightbeam/src/microwasm.rs:1780-1788 | `tee_local`, as pick, swap and drop, assigns the local and keeps the operand |
| `Simulation.PlainSim` | lightbeam/src/microwasm.rs:1378-1409 | an operator without control flow acts on the one stack as on the operand stack, including its traps |
| `Preservation.BlockSim` | lightbeam/src/microwasm.rs:1541-1555 | a block, its end label and branches to it |
| `Preservation.LoopSim` | lightbeam/src/microwasm.rs:1556-1573 | a loop: each return to the header is one more iteration, with fuel |
| `Preservation.IfThenSim` | lightbeam/src/microwasm.rs:1574-1597 | an `if` without `else`, whose implicit else block goes straight to the end |
| `Preservation.IfElseSim` | lightbeam/src/microwasm.rs:1574-1620 | an `if` with both sides |
| `Preservation.ConstsRun` | lightbeam/src/microwasm.rs:1044-1090 | the constants emitted for declared locals complete the arguments with one zero of the declared type for each |
| `Converter.CodeAgrees` | lightbeam/src/microwasm.rs:1428-1788 | running the converter operator by operator over the flattened body is the structured conversion, in live and in dead mode |
| `Converter.ConvertConcat` | lightbeam/src/microwasm.rs:1428-1788 | the converter state threads through any split of the operator stream |
| `Converter.CompileAgrees` | lightbeam/src/microwasm.rs:1428-1788 | the same for a whole function with its final `end` |
| `ConverterFacts.CodeOk` | lightbeam/src/microwasm.rs:1428-1788 | no validated code makes the converter panic; its type stack, frames and dead mode follow the validator |
| `ConverterFacts.SkipCode` | lightbeam/src/microwasm.rs:1456-1524 | dead mode skips any well-nested code, however deep, without emitting or changing anything |
| `ConverterFacts.CloseOk` | lightbeam/src/microwasm.rs:1487-1679 | at the matching `end`, live or dead, the type stack becomes the entry stack plus the block's results and the closing operators have their fixed form |
| `ConverterFacts.ElseOk` | lightbeam/src/microwasm.rs:1474-1620 | at the matching `else`, live or dead, conversion resumes with the entry stack of the `if` |
| `ConverterFacts.ApplyConcrete` | lightbeam/src/microwasm.rs:1378-1409 | `apply_op` pops the inputs if they are on top and pushes the outputs in reverse; otherwise it panics |
| `ConverterFacts.OutputsInOrder` | lightbeam/src/microwasm.rs:1402-1408 | the outputs land in declared order if and only if their type list is a palindrome, as every signature with at most one output is |
| `ConverterNames.CodeNames` | lightbeam/src/microwasm.rs:1356-1360 | every label of a chunk is fresh: declared at most once, defined at most once, numbered within the ids the chunk took |
| `MicrowasmConv.Iterator.Next` | lightbeam/src/microwasm.rs:1428-1788 | the iterator object: each item is what the specification emits for the operators read, the new state is its state, and reader errors, exhaustion and panics happen exactly when it says |
| `MicrowasmConv.Iterator.SkipNext` | lightbeam/src/microwasm.rs:1456-1524 | the dead-mode loop, with its depth counter, against the specification |
| `MicrowasmConv.Iterator.LiveNext` | lightbeam/src/microwasm.rs:1526-1788 | one live operator against the specification |
| `MicrowasmConv.Iterator.ApplyOp` | lightbeam/src/microwasm.rs:1378-1409 | the two loops of `apply_op` against the specification |
| `MicrowasmConv.Iterator.CollectTargets` | lightbeam/src/microwasm.rs:1712-1742 | the `br_table` entries are marked and collected in order; an out-of-range depth is a panic |
| `MicrowasmConv.Iterator.constructor` | lightbeam/src/microwasm.rs:1044-1090 | the initial state, with one pending constant per declared local: zero of its type |
| `MicrowasmConv.Collect` | lightbeam/src/function_body.rs:64-76 | draining the iterator of a valid body yields exactly the compiled stream |
| `Streams.StreamWellFormed` | lightbeam/src/microwasm.rs:1428-1788 | every emitted stream: labels unique, declared before use and definition, each label right after a terminator, caller metadata true, loop bodies entered through their headers only |
| `Streams.ForwardOnly` | lightbeam/src/microwasm.rs:621-647 | a block declared without backward callers is never branched to after its label |
| `Streams.CodeChunk` | lightbeam/src/microwasm.rs:1428-1788 | the same invariants for every chunk relative to the labels in scope, by induction over the code |
| `Streams.LoopChunk` | lightbeam/src/microwasm.rs:1556-1573 | a loop chunk: back edges come from inside, nothing else enters the body |
| `Streams.IfElseChunk` | lightbeam/src/microwasm.rs:1574-1620 | an `if` chunk: each side has exactly one caller, as `num_callers = Some(1)` says |
| `Streams.BrIfChunk` | lightbeam/src/microwasm.rs:1692-1711 | the fall-through block of `br_if` has exactly one caller and its sides differ |
| `Driver.Translate` | lightbeam/src/function_body.rs:147-548 | on a well-formed stream no table lookup fails, no conditional branch meets a pair of conventions it cannot deal with, no block starts without one, exactly the operators reachable through emitted callers are emitted, and a jump is left out exactly where its label comes next |
| `Driver.Enter` | lightbeam/src/function_body.rs:231-307 | a label: skip without callers, otherwise start the block and retire its entry unless it has backward callers |
| `Driver.SkipDead` | lightbeam/src/function_body.rs:243-281 | skipping stops at the next label and still registers every declaration it passes |
| `Driver.Emit` | lightbeam/src/function_body.rs:308-548 | one operator that is not a label, against the table invariant |
| `Driver.EmitBr` | lightbeam/src/function_body.rs:328-370 | a branch gives its target places or passes to the ones it has, and lookups succeed |
| `Driver.EmitBrIf` | lightbeam/src/function_body.rs:371-467 | as the comment hopes, one side has no convention yet and the other has none or a fixed one, so no case is unimplemented; afterwards both have one |
| `Driver.EmitBrTable` | lightbeam/src/function_body.rs:468-548 | a table branch: every target ends up with fixed places |
| `Driver.TableKind` | lightbeam/src/function_body.rs:497-537 | the kind of convention a table branch chooses; it is fixed places whenever no target has one caller or a virtual convention |
| `Driver.TargetConvention` | lightbeam/src/function_body.rs:28-33 | the target of an emitted branch never has a virtual convention; only a conditional branch reaches a block with one announced caller, and finds it without convention |
| `Driver.CountCalls` | lightbeam/src/function_body.rs:468-515 | the counting loop over distinct targets raises their counts and nothing else, and fails exactly when one is missing |
| `Driver.LookupOk` | lightbeam/src/function_body.rs:297-303 | deleting entries of entered forward blocks never breaks a later lookup, and a stale `is_next` is never consulted |
| `Driver.CallsKept` | lightbeam/src/function_body.rs:231-281 | an emitted operator never branches to a skipped label, forwards or backwards, including loop headers with back edges only |
| `Driver.PruningPreserves` | lightbeam/src/function_body.rs:231-281 | replacing all skipped code by traps changes no run of the machine, and no run reaches skipped code |
| `Driver.PrunedMeaning` | lightbeam/src/function_body.rs:231-281 | conversion followed by dead-block elimination still gives exactly the outcomes of the source |
| `BranchSides.StreamBranchesFit` | lightbeam/src/microwasm.rs:1574-1742 | at every conditional and table branch of an emitted stream there is one list of types of which each target's drop range leaves exactly the parameters that target's declaration lists |
| `BranchSides.CodeFits` | lightbeam/src/microwasm.rs:1428-1788 | the same for every chunk, by induction over the code with the declarations of the labels in scope |
| `BranchSides.FreshSides` | lightbeam/src/function_body.rs:385-447 | for every conditional branch of an emitted stream between declared blocks: the driver gives places to the whole stack, the fall-through side keeps all of it, the other side keeps one location per parameter its target declares, in order |
| `StraightLine.FreshBranch` | lightbeam/src/function_body.rs:402-447 | composed with the allocator: the kept places hold exactly the values the Microwasm machine would pass, one per declared parameter; with at most eight entries the fall-through side's old locations and depth stay right, and with more the frame has grown under them unless an immediate found no register |
| `FrameFacts.NineEntries` | lightbeam/src/function_body.rs:402-447 | nine entries, all in registers, in a sound frame: an input on which the fall-through side of a fresh branch is wrong |
| `FrameFacts.EightHolders` | lightbeam/src/backend.rs:2574-2594 | with at most eight entries and temporaries a register is free or the next value is alone in its own, so giving it a place needs no spill |
| `StraightLine.KnownBranch` | lightbeam/src/function_body.rs:394-401 | the other arm: one target has a convention, its arguments are passed, and the values below get places; both sides' locations, at the convention's depth, hold their values |
| `StraightLine.BranchIf` | lightbeam/src/backend.rs:2292-2357 | a conditional branch from its test to the first operator of the side taken, for all three arms: what the side taken starts with, and with at most eight entries under the condition it always succeeds; outside the destinations nothing that is off limits is written |
| `StraightLine.PassedIsKept` | lightbeam/src/function_body.rs:394-401 | what a conditional branch passes is what the Microwasm machine passes, for any values, exactly when the target has no convention yet or its drop range reaches the bottom of the stack |
| `StraightLine.IgnoredWhen` | lightbeam/src/function_body.rs:394-401 | in the converter's terms a drop range is ignored exactly when something lies below the frame and something above it is discarded |
| `StraightLine.IgnoredExample` | lightbeam/src/function_body.rs:394-401 | a second conditional branch out of a block with one operand to discard, in a function with one local: the operand is passed for the local |
| `StraightLine.FollowBrIf` | lightbeam/src/function_body.rs:371-467 | after a conditional branch the side taken starts with the stack of the Microwasm machine if no drop range is ignored; if one is, and no two values are equal, it does not |
| `BranchSides.DropElementsIs` | lightbeam/src/function_body.rs:91-107 | `drop_elements` is the drop of the machine whenever the range fits |
| `Allocator.FreshRegs` | lightbeam/src/backend.rs:284-296 | initial counters and bitmask: scratch registers free, all others reserved |
| `Allocator.Context.constructor` | lightbeam/src/backend.rs:357-366 | a function starts at depth 1 with nothing pinned |
| `Allocator.Context.MarkUsed` | lightbeam/src/backend.rs:312-316 | the counter goes up, the bit is cleared, and they still agree |
| `FrameFacts.CountersFit` | lightbeam/src/backend.rs:312-316 | a register's byte counter is right if and only if its reservation, its stack entries and its temporaries are at most 255 together, as they are with fewer than 255 entries and temporaries in all |
| `FrameFacts.ByteOverflows` | lightbeam/src/backend.rs:312-316 | 256 entries in one register make its byte counter that of a free register |
| `Allocator.Context.Release` | lightbeam/src/backend.rs:334-343 | the counter goes down and the bit is set at zero; every call in the model is shown not to be a double free |
| `Allocator.Context.Take` | lightbeam/src/backend.rs:323-332 | the lowest free register, or none if all counters are positive |
| `Allocator.Context.Enter` | lightbeam/src/backend.rs:2915-2941 | entering a block makes its locations the only users of the registers |
| `Allocator.Context.CheckRegs` | lightbeam/src/function_body.rs:188-196 | the debug assertion before each operator holds if and only if no register is pinned |
| `Allocator.Context.PushPhysical` | lightbeam/src/backend.rs:2965-2994 | pushing a register or slot stores its value in the slot just below the frame and gives up one count |
| `Allocator.Context.Relocate` | lightbeam/src/backend.rs:2086-2096 | an entry and all later aliases move to one fresh slot below every live slot with the same value; counts follow |
| `Allocator.Context.FreeReg` | lightbeam/src/backend.rs:2073-2099 | spills the first register entry and its aliases and no others, if there is one, keeping all values, registers, live slots and pins |
| `Allocator.Context.TakeReg` | lightbeam/src/backend.rs:2101-2112 | terminates; keeps every value; returns a scratch register no entry refers to; gives up only when all eight scratch registers are pinned; does not spill when a register is free; says which registers lose their entries, in which order; never hands out VMCTX or a register that a function must preserve |
| `Locations.ScratchOrOffLimits` | lightbeam/src/backend.rs:507-511 | a register is available to the allocator exactly when it is neither VMCTX nor one that a function must preserve |
| `Locations.SpareRegister` | lightbeam/src/backend.rs:2101-2112 | fewer than eight temporaries cannot exhaust the scratch registers, so the unwraps in the modelled operators succeed |
| `Allocator.Context.ToTempReg` | lightbeam/src/backend.rs:3100-3120 | the register returned holds the value and is used by no entry and no other temporary |
| `Allocator.Context.IntoTempReg` | lightbeam/src/backend.rs:3073-3082 | the same, with the original location given up |
| `Allocator.Context.Pop` | lightbeam/src/backend.rs:3008-3010 | the top entry becomes a pin |
| `Allocator.Context.Push` | lightbeam/src/backend.rs:2996-3006 | a pinned location becomes an entry |
| `Allocator.Context.Pick` | lightbeam/src/backend.rs:4937-4949 | duplicates a value, counting the shared register |
| `Allocator.Context.Swap` | lightbeam/src/backend.rs:5321-5324 | exchanges two values |
| `Allocator.Context.Drop` | lightbeam/src/backend.rs:3012-3027 | removes exactly the range of depths and releases its registers |
| `Allocator.Context.Const` | lightbeam/src/backend.rs:4951-4953 | pushes the value |
| `Allocator.Context.BinOp` | lightbeam/src/backend.rs:1616-1694 | the top becomes the operation on the two popped values, all other entries keep their values under any aliasing and register pressure, nothing stays pinned, and no unwrap fails; registers that are off limits, VMCTX among them, and all words of the frame keep their contents |
| `Allocator.Context.ApplyTo` | lightbeam/src/backend.rs:1660-1688 | the in-place instruction, with register, slot, short and long immediate operands; besides the left register only a granted one is written |
| `StraightLine.Generate` | lightbeam/src/function_body.rs:552-586 | for every straight-line segment and every start machine, the emitted code makes the virtual stack denote the stack of the Microwasm machine, and leaves VMCTX, the other registers that are off limits and all words of the frame alone |
| `StraightLine.StepOnWords` | lightbeam/src/microwasm.rs:444-502 | the modelled Microwasm operators as functions on words |
| `Allocator.Context.SaveRegs` | lightbeam/src/backend.rs:5063-5104 | exactly the entries in the given registers move to slots, with their values |
| `Allocator.Context.PassBlockArgs` | lightbeam/src/backend.rs:2520-2536 | a parallel assignment: the top values arrive in the destinations in order, whatever aliases whatever; the entries below keep their values even where they lived in a destination; no register that is off limits and is not a destination, and no word of the frame, is written |
| `Allocator.Context.SerializeArgs` | lightbeam/src/backend.rs:2574-2594 | the top values get distinct places, registers or fresh slots; on a stack of at most eight entries all are registers and nothing is spilled, so the old locations still denote their values; more than eight values always make the frame grow; it fails only on an immediate past the eighth value; registers that are off limits and words of the frame are left alone |
| `Allocator.Context.SerializeBlockArgs` | lightbeam/src/backend.rs:2543-2572 | the top values arrive at the places of a convention, the next ones down in places of their own, all still there after the frame has taken the convention's depth; on at most eight entries all places are registers |
| `Allocator.Context.TestTop` | lightbeam/src/backend.rs:2295-2357 | the condition is read and given up; no other value, and no pin, changes; the unwrap succeeds |
| `Allocator.Context.OpenBlock` | lightbeam/src/backend.rs:2574-2594 | first branch to a block and its label: the block starts with exactly the carried values |
| `Allocator.Context.PassAndEnter` | lightbeam/src/backend.rs:2520-2541 | later branch to a block and its label: passing, setting the depth and entering leave exactly the carried values, whatever happens to the entries below |
| `StraightLine.FollowBranch` | lightbeam/src/function_body.rs:328-370 | a branch: the virtual stack of the block denotes the stack the Microwasm machine enters it with |
| `StraightLine.Follow` | lightbeam/src/function_body.rs:147-467 | along any run through straight-line code, declarations, branches and conditional branches with at most eight entries under the condition and no ignored drop range, the virtual stack denotes the machine's stack after every step, and VMCTX keeps its start value unless a block takes a parameter in its register |
| `Allocator.Context.SetStackDepth` | lightbeam/src/backend.rs:2478-2518 | pinned registers and slots in use always survive; entries that are live at the new depth stay live exactly when the frame is not being shrunk by one word with no free register and an entry in a register, and then values and pins are kept; registers that are off limits and words of the old frame keep their contents in any case |
| `FrameFacts.CrampedExample` | lightbeam/src/backend.rs:2490-2500 | a frame with an entry in each scratch register for which shrinking by one word loses an entry |
| `Allocator.Context.PassOutgoingArgs` | lightbeam/src/backend.rs:5108-5184 | a parallel assignment with cycle breaking: every destination gets its argument's original value, under any aliasing of the sources; it terminates, the blocked case always finds a register source, and the depth ends even; registers that are off limits and words of the frame are left alone |
| `Allocator.Context.FinishMoves` | lightbeam/src/backend.rs:5140-5181 | the loop over rounds terminates with nothing pending |
| `Allocator.Context.Round` | lightbeam/src/backend.rs:5143-5157 | one round finishes what it can; if it finishes nothing the state is unchanged and every destination is occupied |
| `Allocator.Context.BreakCycle` | lightbeam/src/backend.rs:5159-5180 | a blocked list keeps its meaning and has its first register source later |
| `Shuffle.BlockedIsPermutation` | lightbeam/src/backend.rs:5159-5173 | a blocked pending list permutes its destinations: all sources are registers, pairwise distinct, and are the destinations |
| `Shuffle.CopyDone` | lightbeam/src/backend.rs:5151-5155 | finishing a move to a free destination keeps the meaning of all other moves |
| `Shuffle.CycleBroken` | lightbeam/src/backend.rs:5174-5179 | pushing one register source keeps the meaning of the pending list |
| `Shuffle.ArgRegs` | lightbeam/src/backend.rs:107-134 | argument i, counted after VMCTX, goes to the register of integer argument i + 1 of the System V AMD64 ABI; these are distinct scratch registers other than RAX |
| `Allocator.Context.PrepareCall` | lightbeam/src/backend.rs:4955-4976 | saving, VMCTX and the shuffle together: VMCTX and the arguments are in the registers of integer arguments 0, 1, 2 and so on of the System V AMD64 ABI, in order; everything that must survive the call is out of the scratch registers; VMCTX is in a new slot of the frame |
| `StickyBit.ConversionCorrect` | lightbeam/src/backend.rs:4041-4116 | the halve-convert-double sequence is correctly rounded for every unsigned 64-bit value, at both precisions: the result has a p-bit significand, no number with one is closer, and a tie goes to the even significand |
| `StickyBit.StickyRounds` | lightbeam/src/backend.rs:4056-4063 | for values with the top bit set, rounding the halved value with its sticky bit and doubling is rounding the value |
| `StickyBit.RoundCorrect` | lightbeam/src/backend.rs:4041-4116 | the modelled conversion instruction is correctly rounded in the same sense, at every precision |
| `StickyBit.RoundingUnique` | lightbeam/src/backend.rs:4041-4116 | there is only one correctly rounded result |
| `Allocator.Context.ConvertFromU64` | lightbeam/src/backend.rs:4041-4116 | the instruction sequence: the number is correctly rounded, and the other entries keep their values unless, before the call, the top bit is set, another entry shares the operand's register, and either a register is free or an entry in another scratch register comes before; then one is lost; nothing off limits is written unless it is the operand's own register |
| `Allocator.Context.PickThenConvert` | lightbeam/src/backend.rs:4049-4063 | a value in a register with its top bit set, duplicated and converted, is lost |
| `FrameFacts.ConvertExample` | lightbeam/src/backend.rs:4049-4063 | a frame to which that applies |
| `FrameFacts.HalvedKeepsValues` | lightbeam/src/backend.rs:4059-4062 | halving in place keeps the values of all entries if and only if none is in the operand's register |
| `Allocator.Context.IntoReg` | lightbeam/src/backend.rs:3046-3070 | a value in a register is read there without a new holder; any other is copied to a register nobody uses |
| `VmOffsets.EntriesDisjoint` | wasmtime-environ/src/vmoffsets.rs:256-551 | without overflow any two distinct entries, of any kinds and indices, occupy disjoint byte ranges |
| `VmOffsets.EntryInside` | wasmtime-environ/src/vmoffsets.rs:355-364 | every entry lies inside `size_of_vmctx` |
| `VmOffsets.FieldsDisjoint` | wasmtime-environ/src/vmoffsets.rs:70-250 | fields lie inside their entries and never overlap |
| `VmOffsets.AsDeclared` | wasmtime-runtime/src/vmcontext.rs:11-257 | the sizes and field offsets are those that C gives the structures through which the runtime reads the same memory |
| `VmOffsets.GlobalsAligned` | wasmtime-environ/src/vmoffsets.rs:331-342 | every global definition is 16-byte aligned |
| `VmOffsets.DisjointIff` | wasmtime-environ/src/vmoffsets.rs:25-28 | the entries are pairwise disjoint if and only if the unchecked addition in `align` does not overflow |
| `VmOffsets.WrapExample` | wasmtime-environ/src/vmoffsets.rs:25-28 | a layout that passes every checked operation and whose first global has the offset of the first signature |
| `VmImage.LayoutContext` | wasmtime-obj/src/context.rs:18-93 | succeeds exactly when the layout fits and every initialiser is supported; then a reader decodes from the image the id of every signature, the minimum size of every defined table at its current_elements field and, by type four or eight bytes wide, the constant of every defined global; the relocations are as specified and the image is the zeroed buffer with exactly these writes |
| `VmImage.RestIsZero` | wasmtime-obj/src/context.rs:22-24 | a byte that belongs to no such entry is zero |
| `VmImage.WriteSignatures` | wasmtime-obj/src/context.rs:26-45 | the interning loop writes the ids in order of first occurrence |
| `VmImage.WriteTables` | wasmtime-obj/src/context.rs:47-69 | the minimum sizes of the defined tables decode from their current_elements fields; relocations in order |
| `VmImage.WriteGlobals` | wasmtime-obj/src/context.rs:71-91 | the constants of the defined globals decode from the image at their full width; an unsupported initialiser fails |
| `VmImage.ReadBack` | wasmtime-obj/src/context.rs:18-93 | in a list of pairwise disjoint writes no write disturbs another |
| `VmImage.ImageHolds` | wasmtime-obj/src/context.rs:18-93 | once made, every write of the three loops can be read back at any later time |
| `VmImage.IdsSeparate` | wasmtime-obj/src/context.rs:26-39 | two signatures get the same id exactly when they are equal |
| `VmImage.IdsDense` | wasmtime-obj/src/context.rs:26-39 | a new signature gets the number of different signatures before it |
| `VmImage.SlotsSeparate` | wasmtime-obj/src/context.rs:40-44 | the numbers read from two slots are equal exactly when the signatures are |
| `Bytes.RoundTrip` | wasmtime-obj/src/context.rs:40-44 | a number that fits is recovered from its little-endian bytes |
| `CodeMemory.CodeMemory.Allocate` | wasmtime-jit/src/code_memory.rs:35-48 | a bump allocation past every earlier block of the current mapping; a failed mapping leaves the state unchanged |
| `CodeMemory.CodeMemory.AllocateCopy` | wasmtime-jit/src/code_memory.rs:57-67 | a new block with the given contents, disjoint from all earlier ones, outside every retired mapping |
| `CodeMemory.CodeMemory.AllocateCopies` | wasmtime-jit/src/code_memory.rs:69-88 | one contiguous run of blocks in order with the given contents |
| `CodeMemory.CodeMemory.Publish` | wasmtime-jit/src/code_memory.rs:90-101 | every earlier block is now in an executable mapping and keeps its contents |
| `DebugGc.Dependencies.AddEdge` | wasmtime-debug/src/gc.rs:21-33 | adds exactly one edge |
| `DebugGc.Dependencies.AddRoot` | wasmtime-debug/src/gc.rs:35-37 | adds exactly one root |
| `DebugGc.Dependencies.GetReachable` | wasmtime-debug/src/gc.rs:39-66 | terminates with the least set that contains the roots and is closed under the edges |
| `DebugGc.ClosureUnique` | wasmtime-debug/src/gc.rs:39-66 | there is one such set, so the result does not depend on the order of iteration |
| `DebugGc.Dependencies.Build` | wasmtime-debug/src/gc.rs:182-211 | the walk adds exactly the edges and roots of the tree |
| `DebugGc.ClosureKeeps` | wasmtime-debug/src/gc.rs:182-232 | a set closed under a tree's graph that contains its roots keeps with every entry its parent, its referenced entries and its children with the eleven named tags, and keeps every entry with translatable code below the unit |
| `DebugGc.KeptIsClosed` | wasmtime-debug/src/gc.rs:182-232 | conversely, a set that keeps all that is closed under the graph and contains the roots |
| `DebugGc.Collect` | wasmtime-debug/src/gc.rs:69-93 | for all units together: the result keeps what belongs together in every unit, and is contained in every set that does |

## Left out

- Preservation.MeaningPreserved: a branch to a loop with a non-empty result is accepted only when no operand lies above the loop's entry height or the loop takes no arguments, because the converter computes that drop range from the loop's results; `Simulation.LoopJumpShape` says that every other such branch brings wrong values, and `LoopResults.LoopResultMiscompiled` shows a body with one.
- Preservation.FuncSim: under the same condition on loops with results.
- Preservation.Backward: under the same condition on loops with results.
- Driver.PrunedMeaning: under the same condition on loops with results.
- ConverterFacts.PlainLeaf: plain operators have at most one result; `ConverterFacts.OutputsInOrder` says what happens with more.
- The signature table `op_sig` itself: the types of a plain operator are part of the operator, and its meaning is a parameter shared by source and target. This covers arithmetic, memory, globals and calls.
- Reader errors: the body is parsed; running out of operators is modelled, malformed bytes are not.
- 32-bit wrap-around of label ids, depths and stack offsets: ids and depths are unbounded.
- Allocator.Context.MarkUsed: counters are unbounded; the source keeps them in bytes. `FrameFacts.CountersFit` says exactly on which frames that makes no difference and `FrameFacts.ByteOverflows` shows one on which it does.
- Driver.Translate: of a calling convention only its kind is kept, so the assertion that all conventions of a `br_table`'s targets are equal is not modelled. The arguments a conditional branch passes are in `StraightLine.BranchIf`.
- Driver.Emit: the same, for one operator.
- BranchSides.StreamBranchesFit: a branch to a loop with a result is accepted only when no operand lies above the loop's entry height; at any other the range leaves more than the loop declares (`Simulation.LoopDropShape`), so the statement is false there.
- BranchSides.CodeFits: under the same condition.
- BranchSides.FreshSides: under the same condition, for declared targets, and stated for conditional branches; `BranchSides.StreamBranchesFit` covers the targets of table branches.
- StraightLine.KnownBranch: conventions whose places are registers; a fall-through place that is a slot below the convention's depth is reported as a failure.
- StraightLine.BranchIf: conditions that are not condition codes, fall-through blocks with one announced caller.
- StraightLine.Generate: segments of constants, picks, swaps, drops and two-operand integer operators.
- StraightLine.Follow: runs without table branches, calls and floating point; targets of unconditional branches take their parameters in registers.
- Allocator.Context.PushPhysical: registers and slots only. Pushing an immediate or a floating-point register may itself spill after the slot offset was computed; neither is modelled.
- Allocator.Context.SerializeArgs: an immediate for which no register can be had is reported as a failure; the source then writes it below the slot it reserves.
- Allocator.Context.PassBlockArgs: register destinations only; nothing saves an entry that still lives in a slot used as a destination.
- Allocator.Context.PassOutgoingArgs: register destinations only, and one register that is free throughout, for `set_stack_depth` at the end.
- Shuffle.ArgRegs: at most five integer arguments; a sixth goes to the stack, and floating-point arguments to XMM registers.
- Allocator.Context.PrepareCall: direct calls that preserve VMCTX, up to five integer arguments; the `call` instruction and the restoring of VMCTX are not modelled.
- Allocator.Context.BinOp: the constant folding of an operator and its instruction are one function; their agreement, and 32-bit truncation in registers, belong to that function.
- Condition-code locations, XMM registers and their spilling, division, shifts, multiplication, loads, stores, comparisons and `select` in the backend.
- Instruction encoding, labels, relocations and the constant pool: instructions are steps of an abstract machine.
- StickyBit.ConversionCorrect: results are natural numbers at a precision; the exponent range is never reached. The bitwise disjunction with 0 or 1 is written arithmetically.
- VmImage.LayoutContext: the layout must not wrap in `align`, since the raw writes would then leave the buffer or overlap.
- CodeMemory.CodeMemory.Allocate: the answer of the operating system is a parameter, constrained only to be large enough; protecting pages never fails.
- DebugGc.Dependencies.Build: entries, attributes and the test for a translatable code range are given as data; parse errors are not modelled.
- The rest of the repository: Cranelift and wasmparser, signal handling, instantiation and linking, WASI, interface types, the cache, the C API and the command-line tools.

# Verification of the WebAssembly enclave interpreter

A Dafny model of the repository's WebAssembly stack machine, with proofs that it does what the
WebAssembly Core Specification 1.0 (below: the standard) prescribes, and of five smaller pieces of
code: module initialisation, a kernel allocator, exact exponentiation, the release of a syntax tree
and a bit reversal. `dafny verify dfyconfig.toml` checks everything.

## The interpreter

The interpreter in `wa.cpp` executes structured code by jumping: `find_blocks` computes, in one
pass over the bytes, where every block ends and where a branch to it goes, and `interpret` keeps an
operand stack and a callstack of open blocks and function activations. The model has three levels.

1. `Interpreter.Module` is the source's own form: an object with arrays, stack pointers and tagged
   unions that each operation updates in place. Every method is proved against level 2.
2. `Machine.Step` is one turn of the loop on values: program counter, operand stack, frame pointer,
   callstack, globals, memory. `Undefined` stands for what the C program leaves to chance: indices
   outside its arrays, a union read through the wrong member, undefined behaviour.
3. `Structured.Eval` is the reference, sections 4.4.1 to 4.4.7 of the standard, as an evaluator
   over the nesting structure: no addresses, no jumps, no callstack. It traps wherever the standard
   does.

`Validation.Check` is section 3.3 of the standard, and `Theorems.RunsAgree` is the main result: on
validated modules levels 2 and 3 have the same outcomes, for all functions, arguments and memories,
on every run that does not come to a `call_indirect` at which the standard traps and the code does
not. `Refinement.Sim` is its core. `Tags` carries types through the whole stack of every run,
`Locals` says who may change parameters and locals. `Integers` and `Conversions` prove the integer
opcodes and the truncations of floats against sections 4.3.2 and 4.3.3, with the digit arithmetic of
`Bits`; `Numerics` puts them together. The rest of the path from bytes to the main result is covered
as well: LEB128 (`Leb`), the two instruction decoders (`Bytecode`), the code section
(`CodeSection`), the nesting structure and the scan (`Structure`, `Blocks`, `Boundaries`), import
thunks (`Thunks`), linear memory with the buffer behind it (`MemoryLaws`) and rotations
(`Rotation`). `Example` shows with a concrete module that the premises can be met.

Where the code differs from the standard the model follows the code, and the exact condition under
which the two agree is proved; inputs on which they do not are given by lemmas, in `Deviations` as
whole modules down to the bytes.

- A negative 64-bit LEB128 in five to nine bytes needs the mask `1 << shift`, which is an `int`:
  `Leb.Signed64IsStandard`, `Bytecode.BadMaskShape`, `Bytecode.UndecodableConst`.
- An `if` records its frame before it pops the condition, so surplus operands on a branch to it
  leave one behind: `Branches.IfExitExact`, `Deviations.SurplusDiffers`. `Validation.Check`
  therefore asks a branch to an `if` for exactly the label's operands, with nothing pending in the
  labels in between and with loops in between to which no branch carries a surplus, since a branch
  to a loop does not unwind.
- Branches to loops leave their surplus on the stack until the loop's end. It never becomes
  visible: no restriction is needed for the loop's own label.
- `return` jumps to the end of `callstack[0]`: `Theorems.ReturnIsBranch`.
- `call_indirect` compares only parameter tags, and elements never set are function 0:
  `Indirect.IndirectExact`, `Deviations.UninitialisedRuns`. Validation says nothing about the types
  in the table; a run that makes a call the standard refuses is said to go astray, and the results
  on runs speak up to that point. `Indirect.TableSafe` names modules whose runs never do.
- Shifts by the operand width or more are undefined in C: `Integers.SwitchExact`,
  `Integers.ShiftByWidth`.
- Truncations of doubles to 32 bits compare with the last integer in range, and refuse the fractions
  above it: `Conversions.TruncExact`, `Conversions.HalfAboveDiffers`.
- `grow_memory` adds in 32 bits: `MemoryLaws.GrowStep`. It does not clear the new pages but a range
  behind them; they are clear because nothing has been written there:
  `MemoryLaws.ClearedIffSlack`, `MemoryLaws.RunKeepsSlack`. The bounds check multiplies in 32 bits:
  `MemoryLaws.BoundsExact`.
- The 64-bit mask of an import tells signatures apart up to fourteen parameters and no further:
  `Thunks.MaskInjective`, `Thunks.MaskCollides`. The thunks there are need few: the one selected is
  always that of the signature, `Thunks.DispatchIsExact`. Imports without a thunk are reported and
  then ignored; validated modules have none.

Apart from these restrictions on `if` labels and imports, and a bound of 2^31 on the targets of
`br_table`, `Validation.Check` follows section 3.3 of the standard: `Rules` writes the typing rules
down by instruction and proves both directions. Code behind an unconditional branch, which is never
executed, is not looked at.

Tables and constants that the machine and the reference share are pinned to the standard by laws in
plain numbers: opcodes, immediates and block types in `Instructions`, loads and stores in `Accesses`,
integer instructions in `Operators`, the layout of calls and the thunks in `Calls`, floating point
formats in `Conversions`.

## The other programs

- `StaticRuntime`: recursive once-only initialisation in `static_runtime.c`, which needs inherited
  globals to be settled by the module named with them: `StaticRuntime.UnsettledDiffers`. `Segments`
  and `StaticWrites`: what it writes into tables and memories, and when it traps. `Imports`: the type
  checks it makes, which take a maximum of zero for none: `Imports.LimitsExact`.
- `Allocator`: `malloc`, `calloc`, `realloc` and `free` of `sys.h` with their headers. The doubling
  loop does not end for sizes above 2^63 - 16, except the sixteen largest, for which the block is
  too small: `Allocator.LoopEnds`, `Allocator.BlockHolds`.
- `LongPower`: `lpow` and the arithmetic of `get_static_bump`, which refuses a zero coefficient with
  a huge exponent: `LongPower.StaticBumpExact`, `LongPower.ZeroRefused`.
- `AstRelease`: `sgxwasm_free_wasm_module` over the recursive instruction tree.
- `BitReversal`: `swizzle`.

## Model

| member | source | states |
|---|---|---|
| `Theorems.RunsAgree` | src/webassemblyEnclave/Enclave/wa.cpp:649-1474 | For every validated, loaded module, every function and every argument list of its parameter types, if the run never goes astray (comes to a call_indirect at which the standard traps and the code does not): the byte-level machine reaches a final outcome if and only if the structured evaluator of section 4.4 of WebAssembly Core 1.0 has that outcome (same results, globals and memory, or the same trap); a run that goes on forever corresponds to an evaluator no bound lets finish |
| `Theorems.EvalIsRun` | src/webassemblyEnclave/Enclave/wa.cpp:649-1474 | Forward simulation for every validated, loaded module: if the evaluator finishes within some bound, some number of machine steps ends with the same outcome, except that where the evaluator traps the machine may come to a call_indirect it does not trap at; if the evaluator runs out of its bound, the machine is still running after at least that many steps |
| `Theorems.RunIsEval` | src/webassemblyEnclave/Enclave/wa.cpp:649-1474 | Backward direction and safety: after any number of steps the machine is still running, has ended as the evaluator prescribes, or has gone astray at a call_indirect; otherwise the call signature mismatch exit of pop_block is never taken, the state is undefined only where the sum in grow_memory wraps or a shift count is not below the width, and a trap is the trap of the standard unless a truncation refuses a double too early |
| `Theorems.CallDiscipline` | src/webassemblyEnclave/Enclave/wa.cpp:464-500 | At every step of a call nested to any depth, until it has returned or gone astray: stack below the arguments and all frames of the callers unchanged, bases above the locals below them, frame pointers linked, state well typed; on return pc is behind the call, fp and callstack are the caller's, and the arguments have become results of the declared types |
| `Theorems.FrameLayout` | src/webassemblyEnclave/Enclave/wa.cpp:456-500 | In every reachable state of validated code (not astray): nothing below the arguments has changed, operand bases (the frame's sp plus one, or sp for an if) are non-decreasing along the callstack, parameters and locals of every activation lie between its base and the base of every frame above it, at most at the height of the stack, and fp, like the fp each frame has saved, is the base of the activation it belongs to |
| `Locals.LocalsKept` | src/webassemblyEnclave/Enclave/wa.cpp:893-916 | In every reachable state of validated code (not astray) a step other than set_local, tee_local and the function end leaves parameters and locals of the current function unchanged, set_local and tee_local write exactly the local they name, and no step changes parameters or locals of a suspended activation |
| `Locals.StepPreserves` | src/webassemblyEnclave/Enclave/wa.cpp:649-1474 | The same for one step from any well-typed state: what the instruction at pc may do to the locals and to the stack below fp |
| `Tags.TypesPreserved` | src/webassemblyEnclave/Enclave/wa.cpp:649-1474 | In every reachable state of validated code (not astray), for the whole stack: parameters and locals of all activations have the declared tags; below the base of every open block lie operands of exactly the types validation has before that block, below the base of every call those the caller keeps under the arguments, with nothing else in between unless the frame below is a loop; and the machine is at an instruction with exactly the operand tags validation computes there, or at the else or end of its topmost frame with tags of all its results on top |
| `Tags.StepFilled` | src/webassemblyEnclave/Enclave/wa.cpp:649-1474 | The same for one step from any well-typed state: pushing frames, leaving them, and overwriting locals keep every tag below where it belongs |
| `Theorems.BoundariesKept` | src/webassemblyEnclave/Enclave/wa.cpp:395-449 | The program counter of every reachable state (not astray) is an address at which find_blocks, scanning some function, has looked at an opcode |
| `Theorems.ReturnIsBranch` | src/webassemblyEnclave/Enclave/wa.cpp:795-806 | return, which jumps to the end of callstack[0], followed by the end step gives the same state as branching to the current function's own label, in nested calls, too |
| `Theorems.LoadedByFindBlocks` | src/webassemblyEnclave/Enclave/wa.cpp:395-449 | Function records as load_module fills them in and a lookup table computed by find_blocks give the simulation everything it needs, for any well-nested bodies |
| `Theorems.ResultTyped` | src/webassemblyEnclave/Enclave/wa.cpp:464-500 | Results of a call of a validated function have the declared types, globals keep their types, the memory stays well formed, and no signature mismatch occurs |
| `Branches.IfExitExact` | src/webassemblyEnclave/Enclave/wa.cpp:694-717 | From a br, br_if or br_table that goes to an if, with any operands below, any surplus and any results: two steps end behind the if with the outer operands and the results if and only if no operand is surplus; otherwise exactly one surplus operand stays below the results, because the frame has recorded the height with the condition still on the stack |
| `Branches.BlockExitExact` | src/webassemblyEnclave/Enclave/wa.cpp:481-492 | From a br, br_if or br_table that goes to a block two steps end behind it with exactly the outer operands and the results, whatever the surplus |
| `Deviations.SurplusDiffers` | src/webassemblyEnclave/Enclave/wa.cpp:694-717 | A concrete body with a surplus operand on a branch to an if, down to its bytes: the standard returns 1, the interpreter 2 |
| `Indirect.IndirectAccepts` | src/webassemblyEnclave/Enclave/wa.cpp:848-866 | In any state and for any function, imports included, the comparison traps if and only if the function is defined in the module and its parameter types are not those of the topmost operands; neither its results nor the expected type are compared |
| `Indirect.IndirectResultUnchecked` | src/webassemblyEnclave/Enclave/wa.cpp:848-866 | Where an entry has the expected parameters and other results, the evaluator traps and the machine enters the function |
| `Indirect.IndirectExact` | src/webassemblyEnclave/Enclave/wa.cpp:824-873 | At every call_indirect of validated code, for every index: the machine traps exactly when the standard does if and only if the index is beyond the maximum, or the entry is uninitialised and the comparison refuses function 0, or it has the expected type, or it has another type and the comparison refuses it; where the standard goes on, the evaluator calls the entry |
| `Indirect.MachineTraps` | src/webassemblyEnclave/Enclave/wa.cpp:824-873 | In any state the machine traps at a call_indirect if and only if the index is not below the maximum or the entry read is a defined function whose parameter types are not those of the topmost operands |
| `Indirect.TableSafe` | src/webassemblyEnclave/Enclave/wa.cpp:824-873 | No run goes astray if the table is at its maximum and each entry of another type than a type of the module differs in the parameters the comparison looks at: for such modules the main results hold without further premise |
| `Deviations.UninitialisedRuns` | src/webassemblyEnclave/Enclave/wa.cpp:837-866 | A concrete loaded and validated module with a table element never set: the standard traps at the call through it, the interpreter runs function 0 and returns its result |
| `Refinement.Sim` | src/webassemblyEnclave/Enclave/wa.cpp:649-873 | The simulation itself: from the start of any validated instruction sequence, under any enclosing labels, some number of steps brings the machine to the evaluator's outcome (operands, locals, globals, memory, pc and callstack), every state on the way being well typed and leaving callers untouched |
| `Refinement.CallExact` | src/webassemblyEnclave/Enclave/wa.cpp:615-647 | From setup_call on the machine reaches exactly the state the evaluator's call result prescribes, traps as it does, or is still running when the bound is used up |
| `Refinement.Unnest` | src/webassemblyEnclave/Enclave/wa.cpp:464-500 | Leaving a block by its end, by a branch to it, or by a branch or return through it takes the machine from the outcome inside to the outcome around it |
| `Refinement.LoopSim` | src/webassemblyEnclave/Enclave/wa.cpp:754-760 | A branch to a loop goes back to its body without unwinding sp; what it leaves behind stays below the operands of later turns and is dropped at the loop's end |
| `Refinement.ArmSim` | src/webassemblyEnclave/Enclave/wa.cpp:694-724 | Either arm of an if, with or without else, from the opcode to the instruction behind its end |
| `Refinement.IndirectSim` | src/webassemblyEnclave/Enclave/wa.cpp:824-873 | call_indirect through an entry of the expected type passes the comparison and runs that function as the evaluator does |
| `Refinement.RefusedAgrees` | src/webassemblyEnclave/Enclave/wa.cpp:824-873 | Where the standard refuses the entry the evaluator traps, and the machine either traps with the same exception or is about to go astray |
| `Refinement.UnwindFinds` | src/webassemblyEnclave/Enclave/wa.cpp:795-799 | The loop of return stops at the frame of the current function, whatever number of blocks is open |
| `Simulation.BasicSim` | src/webassemblyEnclave/Enclave/wa.cpp:875-1474 | Each parametric, variable, memory, constant and numeric instruction does in place what the evaluator does to its own operands, with the same traps; integer opcodes and truncations against section 4.3 of the standard, floating point arithmetic up to a shared parameter |
| `Validation.Sound` | src/webassemblyEnclave/Enclave/wa.cpp:649-1474 | Soundness of the validation rules (section 3.3 of WebAssembly Core 1.0, with the restriction on if branches) for the structured evaluator: validated code never gets stuck and every outcome has the static types |
| `Validation.BasicSound` | src/webassemblyEnclave/Enclave/wa.cpp:875-1474 | Each instruction without control turns operands of its static input types into operands of its static output types |
| `Validation.LeaveSound` | src/webassemblyEnclave/Enclave/wa.cpp:464-500 | The outcome inside a label, read outside it, has the types of the enclosing sequence |
| `Validation.IndirectSound` | src/webassemblyEnclave/Enclave/wa.cpp:824-873 | A call through the table in validated code ends with operands of the static types or traps, for any table of functions |
| `Rules.OpAccepted` | src/webassemblyEnclave/Enclave/wa.cpp:649-1474 | Every instruction of the standard, on top of any operands, is accepted with the operand and result types of section 3.3, unless it branches to a label that must not get a surplus |
| `Rules.OpRuled` | src/webassemblyEnclave/Enclave/wa.cpp:649-1474 | No other instruction is accepted, and none with other types |
| `Rules.FunctionRules` | src/webassemblyEnclave/Enclave/wa.cpp:649-1474 | Accepted function bodies are well typed by the rules of section 3.3, and well-typed ones in which no branch goes to an if are accepted |
| `Blocks.FindBlocksMatches` | src/webassemblyEnclave/Enclave/wa.cpp:395-449 | The one-pass scan with its block stack computes, for all well-nested bodies, the same record (end, else and branch address) at every block address as a recursive-descent matcher, nothing else, and leaves the block stack empty after each function |
| `Blocks.FindBlocks` | src/webassemblyEnclave/Enclave/wa.cpp:395-449 | The loop over functions and opcodes with its mutable block stack and lookup table computes the scan |
| `Blocks.ScanPlaced` | src/webassemblyEnclave/Enclave/wa.cpp:406-444 | Scanning any nested sequence adds exactly its records and restores the block stack, even in the middle of open blocks |
| `Blocks.IntervalsNested` | src/webassemblyEnclave/Enclave/wa.cpp:409-441 | The intervals from start to end of any two blocks of a body are nested or disjoint |
| `Structure.MatchComplete` | src/webassemblyEnclave/Enclave/wa.cpp:395-449 | Recursive descent finds every nesting structure the bytes admit, so there is at most one |
| `Boundaries.ScanVisitsBody` | src/webassemblyEnclave/Enclave/wa.cpp:406-444 | The addresses at which the scan looks at an opcode are exactly those of the instructions, else and end bytes of the function's nesting structure |
| `Boundaries.VisitsAreScanned` | src/webassemblyEnclave/Enclave/wa.cpp:402-448 | An address belongs to the code of the module if and only if the scan of some function visits it |
| `Instructions.OpDecodes` | src/webassemblyEnclave/Enclave/wa.cpp:649-1474 | The binary format of section 5.4, each instruction with its literal opcode and immediates: wherever the bytes of an instruction are, interpret decodes that instruction and its length, except negative i64 constants in five to nine bytes; bytes without meaning are decoded as unknown |
| `Instructions.TreeMatched` | src/webassemblyEnclave/Enclave/wa.cpp:395-449 | Every sequence of instructions, blocks, loops and ifs, encoded with literal opcodes, block types, else and end bytes, is recovered by the matcher with its structure and types |
| `Instructions.TreePlaced` | src/webassemblyEnclave/Enclave/wa.cpp:395-449 | The same for its addresses: the nesting structure of the encoded bytes |
| `Instructions.NumericTyped` | src/webassemblyEnclave/Enclave/wa.cpp:1096-1468 | The numeric opcodes have the operand and result types section 3.3.1 gives the instructions of their names |
| `Instructions.NumericMeans` | src/webassemblyEnclave/Enclave/wa.cpp:1096-1468 | The integer operations, truncations, widths and signs the opcodes stand for are those of their names |
| `Instructions.OpcodesDiffer` | src/webassemblyEnclave/Enclave/wa.cpp:1096-1468 | Different numeric instructions have different opcodes |
| `Instructions.OpcodesCover` | src/webassemblyEnclave/Enclave/wa.cpp:1096-1468 | Every byte from 0x45 to 0xbf is the opcode of a numeric instruction |
| `Bytecode.DecodersAgree` | src/webassemblyEnclave/Enclave/wa.cpp:351-393 | interpret can decode an instruction if and only if skip_immediates can skip it inside the module and its sign mask is defined, and then both consume the same number of bytes |
| `Bytecode.BadMaskShape` | src/webassemblyEnclave/Enclave/wa.cpp:1079-1082 | The constants that can be skipped but not decoded are exactly the negative i64 constants in five to nine bytes |
| `Bytecode.UndecodableConst` | src/webassemblyEnclave/Enclave/wa.cpp:1079-1082 | The failing input: i64.const -2^32, which the standard reads, skip_immediates passes over and interpret cannot decode |
| `Bytecode.UndecodableEncoded` | src/webassemblyEnclave/Enclave/util.cpp:34-47 | Its five bytes are what an encoder makes of the number |
| `Bytecode.TableAgrees` | src/webassemblyEnclave/Enclave/wa.cpp:383-389 | The two decoders agree on br_table with any number of targets |
| `Bytecode.Fetch` | src/webassemblyEnclave/Enclave/wa.cpp:666-1094 | The calls of read_LEB that interpret makes, opcode by opcode, yield the decoded instruction and its length; Instructions.OpDecodes says which instruction that is |
| `Bytecode.FetchTable` | src/webassemblyEnclave/Enclave/wa.cpp:772-779 | The target loop of br_table reads count targets and the default |
| `Bytecode.SkipImmediates` | src/webassemblyEnclave/Enclave/wa.cpp:351-393 | The skipping loop computes where the next instruction starts |
| `CodeSection.LoadLocals` | src/webassemblyEnclave/Enclave/wa.cpp:1918-1941 | The two passes over the local declarations: the first sizes the array, the second fills it so that local i has the type of the declaration it falls in |
| `CodeSection.LocalsExpand` | src/webassemblyEnclave/Enclave/wa.cpp:1918-1941 | The locals are those of the declarations written out one after the other |
| `CodeSection.LoadBody` | src/webassemblyEnclave/Enclave/wa.cpp:1911-1949 | One code entry: type, locals, start and end address as the binary format defines them |
| `CodeSection.LoadCode` | src/webassemblyEnclave/Enclave/wa.cpp:1907-1951 | The section loop gives function import_count + b the record of body b |
| `CodeSection.BodyRoundTrip` | src/webassemblyEnclave/Enclave/wa.cpp:1911-1948 | An encoded body placed anywhere is read back: the same declarations, an extent holding exactly the code bytes, and the position behind the entry |
| `CodeSection.BodiesOrdered` | src/webassemblyEnclave/Enclave/wa.cpp:1911-1949 | Bodies never overlap and keep the order of the section |
| `CodeSection.LoadedFromBytes` | src/webassemblyEnclave/Enclave/wa.cpp:1907-1960 | Records read from the section and the table of find_blocks together satisfy all the simulation asks for, if every body is well nested |
| `Interpreter.Module.Interpret` | src/webassemblyEnclave/Enclave/wa.cpp:649-1474 | The loop over arrays, stack pointers and union cells, run for any number of turns, has the status and abstract state of the step function, given room on both stacks |
| `Interpreter.Module.Turn` | src/webassemblyEnclave/Enclave/wa.cpp:666-676 | One turn: fetch at pc and dispatch is one step |
| `Interpreter.Module.Dispatch` | src/webassemblyEnclave/Enclave/wa.cpp:676-1473 | The switch does on arrays what the step function prescribes for each instruction |
| `Interpreter.Module.PushBlock` | src/webassemblyEnclave/Enclave/wa.cpp:456-462 | Pushes one frame recording sp, fp and the return address; nothing else changes |
| `Interpreter.Module.PopBlock` | src/webassemblyEnclave/Enclave/wa.cpp:464-500 | Restores fp, sp (keeping a result) and, for a function, pc; fails exactly on a result tag mismatch |
| `Interpreter.Module.SetupCall` | src/webassemblyEnclave/Enclave/wa.cpp:615-647 | Pushes the frame and one cell for each local, of the declared type and with both halves of the union zero, sets fp to the first argument and pc to the function's start |
| `Calls.SetupLayout` | src/webassemblyEnclave/Enclave/wa.cpp:615-647 | After setup_call everything below and the arguments are in place, fp is at the first argument, and the slot of local i behind the parameters has its declared type and bits 0 |
| `Calls.EntryLocals` | src/webassemblyEnclave/Enclave/wa.cpp:615-647 | A body starts with the arguments in order, then zeros of the declared types, in the reference semantics, too |
| `Calls.StartLocals` | src/webassemblyEnclave/Enclave/wa.cpp:615-647 | So does an invocation |
| `Interpreter.Module.EnterBlock` | src/webassemblyEnclave/Enclave/wa.cpp:686-717 | block, loop and if, including the pop of the frame when an if without else is skipped |
| `Interpreter.Module.ReturnFromFunction` | src/webassemblyEnclave/Enclave/wa.cpp:795-806 | The unwinding loop of return |
| `Interpreter.Module.CallIndirect` | src/webassemblyEnclave/Enclave/wa.cpp:824-873 | Table lookup, call and tag loop with both trap exits |
| `Interpreter.Module.HostCall` | src/webassemblyEnclave/Enclave/thunks.cpp:439-458 | A thunk passes the arguments in declaration order and changes sp by exactly results minus parameters |
| `Calls.HostOrder` | src/webassemblyEnclave/Enclave/thunks.cpp:439-458 | The host gets the bits of the arguments in the order of the parameters, and its result, cut to the width of the result type, takes their place |
| `Interpreter.Module.SelectOne` | src/webassemblyEnclave/Enclave/wa.cpp:881-887 | select by overwriting in place keeps the first or second operand |
| `Interpreter.Module.SetLocal` | src/webassemblyEnclave/Enclave/wa.cpp:901-916 | set_local and tee_local overwrite one slot of the current function |
| `Interpreter.Module.LoadValue` | src/webassemblyEnclave/Enclave/wa.cpp:963-1027 | Bounds check, byte copy and extension of every load opcode |
| `Accesses.Loads` | src/webassemblyEnclave/Enclave/wa.cpp:963-1027 | The fourteen loads by their opcodes: operand type, number of bytes, little-endian value and sign extension, in every state, and a trap exactly when some byte is outside the memory |
| `Interpreter.Module.StoreValue` | src/webassemblyEnclave/Enclave/wa.cpp:1029-1070 | Bounds check and byte copy of every store opcode; the slack of the buffer stays clear |
| `Accesses.Stores` | src/webassemblyEnclave/Enclave/wa.cpp:1029-1070 | The nine stores by their opcodes: operand type, which bytes change and to what, that no others do, and a trap exactly when some byte is outside the memory |
| `Interpreter.Module.GrowMemory` | src/webassemblyEnclave/Enclave/wa.cpp:942-961 | grow_memory on the page count and the buffer of four bytes for each byte of memory: the program sees cleared pages because nothing has been written behind the last one, which all methods keep |
| `Interpreter.Module.Reallocate` | src/webassemblyEnclave/Enclave/util.cpp:95-104 | arecalloc: realloc keeps the old block, memset clears from its end on |
| `Interpreter.Module.Numeric` | src/webassemblyEnclave/Enclave/wa.cpp:1096-1468 | Operands are read through the union members the opcode uses, results and traps of integer opcodes and truncations are those of the switch, and the result slot gets tag and bits of its type |
| `Interpreter.TagsMatchSignatures` | src/webassemblyEnclave/Enclave/wa.cpp:1096-1468 | For every numeric opcode the widths read and written and the tag assigned or left alone agree with its type in section 3.3 |
| `Interpreter.ArityMatches` | src/webassemblyEnclave/Enclave/wa.cpp:1096-1468 | For every numeric opcode the decrement of sp fits its number of operands |
| `Interpreter.WrittenShows` | src/webassemblyEnclave/Enclave/wa.cpp:1096-1468 | Whatever the untouched half of the union holds, the slot written shows the result value |
| `Integers.SwitchExact` | src/webassemblyEnclave/Enclave/wa.cpp:1100-1316 | For every integer opcode and all operands the switch, with its casts, wrapping and order of checks, computes the function of section 4.3.2 of WebAssembly Core 1.0 and traps exactly when it does (division by zero, most negative number by -1), if and only if it is no shift by the operand width or more, which C leaves undefined |
| `Operators.Tests` | src/webassemblyEnclave/Enclave/wa.cpp:1100-1105 | eqz on the stack: 1 if the operand is zero, 0 otherwise |
| `Operators.Comparisons32` | src/webassemblyEnclave/Enclave/wa.cpp:1107-1127 | The ten 32-bit comparisons by their opcodes: 1 if the relation holds between the first and the second operand, read as signed or unsigned numbers, and 0 otherwise |
| `Operators.Comparisons64` | src/webassemblyEnclave/Enclave/wa.cpp:1128-1147 | The ten 64-bit comparisons |
| `Operators.Binops` | src/webassemblyEnclave/Enclave/wa.cpp:1236-1312 | The thirty binary integer instructions in plain arithmetic, first operand below the second: sums, differences and products modulo the word, division truncated towards zero with its rest and traps, digits of bitwise operations, shifts and rotations |
| `Operators.Unops` | src/webassemblyEnclave/Enclave/wa.cpp:1175-1196 | clz, ctz, popcnt, wrap and the two extensions by their opcodes |
| `Integers.ShiftByWidth` | src/webassemblyEnclave/Enclave/wa.cpp:1267-1269 | The failing input: i32.shl of 1 by 32 is 1 in the standard and has no value in C |
| `Numerics.NumExact` | src/webassemblyEnclave/Enclave/wa.cpp:1096-1468 | Every numeric opcode gives the value and the trap of the standard, given floating point arithmetic, if and only if it is no far shift and no truncation that refuses its operand too early; only shl, shr_s, shr_u and the truncations of doubles to 32 bits have such cases |
| `Conversions.TruncExact` | src/webassemblyEnclave/Enclave/wa.cpp:1356-1440 | The eight truncations of floats to integers, on all bit patterns: result and trap are those of section 4.3.3 of WebAssembly Core 1.0 if and only if the operand is not a double strictly between the last 32-bit integer in range and the next one, where the interpreter traps and the standard does not |
| `Conversions.Fields32` | src/webassemblyEnclave/Enclave/wa.cpp:1356-1440 | Sign, exponent and fraction of a 32-bit pattern and the number they stand for |
| `Conversions.Fields64` | src/webassemblyEnclave/Enclave/wa.cpp:1356-1440 | The same for 64 bits |
| `Conversions.KnownFloats` | src/webassemblyEnclave/Enclave/wa.cpp:1356-1440 | 0, 1, -1, 1.5 and 2 in both formats |
| `Conversions.HalfAboveDiffers` | src/webassemblyEnclave/Enclave/wa.cpp:1376-1385 | The failing input: i32.trunc_s/f64 of 2147483647.5 |
| `Conversions.LargeIsWhole` | src/webassemblyEnclave/Enclave/wa.cpp:1356-1440 | Negative numbers at least as large as the significand have no fraction, which is why the lower bounds of the other signed truncations are exact |
| `Integers.DivIsQuot` | src/webassemblyEnclave/Enclave/wa.cpp:1252-1297 | The division of C is the real quotient truncated towards zero |
| `Integers.RemIsRest` | src/webassemblyEnclave/Enclave/wa.cpp:1257-1303 | The remainder of C is what that quotient leaves |
| `Invoke.Invoke` | src/webassemblyEnclave/Enclave/wa.cpp:2000-2057 | The array interpreter against the standard, end to end, unless the run goes astray: a finished invocation has exactly the results of the evaluator in place of its arguments, a raised exception is the trap of the evaluator or that of a truncation too early |
| `Example.Halts` | src/webassemblyEnclave/Enclave/wa.cpp:649-753 | A concrete module with a surplus operand on a branch meets all premises of the main results and halts with its result only |
| `Thunks.GetThunkMask` | src/webassemblyEnclave/Enclave/wa.cpp:506-520 | The shift-and-or loop computes the mask |
| `Thunks.MaskRoundTrip` | src/webassemblyEnclave/Enclave/wa.cpp:506-520 | With at most thirteen parameters and one result the mask decodes back to the signature |
| `Thunks.MaskInjective` | src/webassemblyEnclave/Enclave/wa.cpp:506-520 | No two signatures with at most n parameters and one result have the same mask if and only if n is at most fourteen |
| `Thunks.MaskCollides` | src/webassemblyEnclave/Enclave/wa.cpp:506-520 | The failing inputs: any fifteen parameters, with and without a result |
| `Thunks.SwitchDecodes` | src/webassemblyEnclave/Enclave/wa.cpp:537-556 | Every mask of the switch decodes to the signature of the thunk it selects |
| `Thunks.DispatchIsExact` | src/webassemblyEnclave/Enclave/wa.cpp:522-556 | The thunk selected for a supported import, of any number of parameters, is the one for its own signature |
| `Calls.ThunksAre` | src/webassemblyEnclave/Enclave/wa.cpp:522-556 | There is a thunk for a signature if and only if it is one of seventeen, given by their types |
| `Leb.ReadLEB` | src/webassemblyEnclave/Enclave/util.cpp:14-39 | The decoder loop computes the value of the groups cut to 64 bits, or-ed with the sign mask where the source does so, and stops behind the terminating byte |
| `Leb.UnsignedIsStandard` | src/webassemblyEnclave/Enclave/util.cpp:14-43 | An unsigned reading is the value of section 5.2.2 of WebAssembly Core 1.0 |
| `Leb.Signed32IsStandard` | src/webassemblyEnclave/Enclave/util.cpp:34-47 | A signed 32-bit reading, truncated, is the standard's value for every encoding of up to five bytes |
| `Leb.Signed64IsStandard` | src/webassemblyEnclave/Enclave/util.cpp:34-47 | A signed 64-bit reading is the standard's value if and only if it is non-negative or takes at most four or exactly ten bytes, because the mask 1 << shift is an int |
| `Leb.UnsignedRoundTrip` | src/webassemblyEnclave/Enclave/util.cpp:14-43 | Every uint32 and uint64, encoded at any offset, is read back with its exact length |
| `Leb.Int32RoundTrip` | src/webassemblyEnclave/Enclave/util.cpp:14-47 | Every int32 is read back after truncation |
| `Leb.Int64RoundTrip` | src/webassemblyEnclave/Enclave/util.cpp:14-47 | An int64 is read back if and only if it is non-negative or its encoding takes at most four or exactly ten bytes |
| `MemoryLaws.BoundsExact` | src/webassemblyEnclave/Enclave/wa.cpp:973-979 | The check with its 32-bit sum and product is the check of the unbounded sum against the memory size for all accesses if and only if there are fewer than 65536 pages |
| `MemoryLaws.StoreThenLoad` | src/webassemblyEnclave/Enclave/wa.cpp:990-1068 | A load after a store of the same address and width gives the value cut to that width and zero- or sign-extended to the operand type |
| `MemoryLaws.StoreFrame` | src/webassemblyEnclave/Enclave/wa.cpp:1058-1068 | A store changes no other byte |
| `MemoryLaws.ExtendMeans` | src/webassemblyEnclave/Enclave/util.cpp:138-153 | The or-with-a-mask extension has the two's complement meaning |
| `MemoryLaws.BytesRoundTrip` | src/webassemblyEnclave/Enclave/wa.cpp:1058-1068 | Writing n bytes little-endian and reading them back gives the value modulo 256 to the n |
| `MemoryLaws.GrowStep` | src/webassemblyEnclave/Enclave/wa.cpp:942-961 | One grow_memory on the buffer returns the old size with cleared pages appended to what the program sees, or 2^32-1 with nothing changed; it is undefined exactly when the sum wraps |
| `MemoryLaws.ClearedIffSlack` | src/webassemblyEnclave/Enclave/util.cpp:95-104 | arecalloc clears from four times the old size on, so the new pages read as zero if and only if the slack they take over does |
| `MemoryLaws.StoreKeepsSlack` | src/webassemblyEnclave/Enclave/wa.cpp:1058-1068 | A store inside the memory leaves the slack clear |
| `MemoryLaws.RunKeepsSlack` | src/webassemblyEnclave/Enclave/wa.cpp:942-1068 | In every run of stores and grow_memory the slack stays clear and the buffer shows the memory in which each grow appends cleared pages |
| `MemoryLaws.GrowRunKeeps` | src/webassemblyEnclave/Enclave/wa.cpp:337-349 | Any defined run of grow_memory on the buffer keeps pages non-decreasing and at most the maximum and 0x8000, keeps all old bytes and shows zeros in all new ones |
| `MemoryLaws.GrowRunExact` | src/webassemblyEnclave/Enclave/wa.cpp:945-951 | A run is defined if and only if size plus delta wraps at none of its steps |
| `Rotation.RotateSwaps` | src/webassemblyEnclave/Enclave/util.cpp:155-181 | For 32 and 64 bits and any count, rotl moves the high bits below the others and rotr moves them back |
| `Rotation.RotateInverse` | src/webassemblyEnclave/Enclave/util.cpp:155-181 | rotl and rotr by the same count undo each other on every word |
| `Rotation.RotateLeftBit` | src/webassemblyEnclave/Enclave/util.cpp:155-160 | Digit i of a word rotated left by c is digit i - c modulo the width |
| `Rotation.RotateRightBit` | src/webassemblyEnclave/Enclave/util.cpp:162-167 | Digit i of a word rotated right by c is digit i + c modulo the width |
| `StaticRuntime.Runtime.InitStaticModule` | wasmjit/Enclave/wasmjit/static_runtime.c:47-154 | The recursive procedure with its check, initialiser and segment loops computes the initialisation, or traps exactly when it does; recursion ends on every acyclic dependency graph |
| `StaticRuntime.Runtime.CheckImports` | wasmjit/Enclave/wasmjit/static_runtime.c:55-81 | The four loops over the imports go through if and only if every function, table, memory and global is of the type asked for |
| `Imports.TypecheckFunc` | src/sgx-wasmjit/Enclave/wasmjit/runtime.c:114-124 | The comparison of two type lists holds if and only if the function types are equal |
| `Imports.LimitsExact` | src/sgx-wasmjit/Enclave/wasmjit/runtime.c:126-145 | The comparison of limits gives the verdict of import matching (section 4.5.3 of WebAssembly Core 1.0) if and only if the size is too small, no maximum is asked for, or both maxima are zero or neither is, because zero stands for none |
| `Imports.TableMatches` | src/sgx-wasmjit/Enclave/wasmjit/runtime.c:126-134 | Tables: the verdict of import matching if and only if the element types differ or the maxima do not mislead |
| `Imports.MemoryMatches` | src/sgx-wasmjit/Enclave/wasmjit/runtime.c:136-145 | Memories, in whole pages: likewise |
| `Imports.GlobalMatches` | src/sgx-wasmjit/Enclave/wasmjit/runtime.c:147-151 | Globals: same value type and same mutability |
| `Imports.ZeroIsUnbounded` | src/sgx-wasmjit/Enclave/wasmjit/runtime.c:136-145 | The failing input: an import of a memory without pages accepts one without bounds |
| `StaticRuntime.Runtime.WriteElements` | wasmjit/Enclave/wasmjit/static_runtime.c:98-119 | Table segments are written in order through the function indices, with the type and overflow traps |
| `StaticRuntime.Runtime.WriteDatas` | wasmjit/Enclave/wasmjit/static_runtime.c:121-141 | Data segments are written in order, with the type and overflow traps |
| `Segments.PutAllExact` | wasmjit/Enclave/wasmjit/static_runtime.c:98-141 | The loop over segments goes through if and only if each has an i32 offset and ends inside its target; then slot offset + k holds item k unless a later segment covers it, slots no segment covers are as before, and sizes are kept |
| `StaticWrites.CompleteExact` | wasmjit/Enclave/wasmjit/static_runtime.c:98-153 | The last stage of a module traps exactly if a segment does not fit or the start function takes or returns something; otherwise its element and data segments have been written |
| `StaticWrites.InitWrites` | wasmjit/Enclave/wasmjit/static_runtime.c:47-154 | Initialisation without a trap completes modules one after the other, each once with imports of the right types, and leaves tables and memories holding exactly their segments, in that order, over what was there before; start functions are logged in that order |
| `StaticWrites.InitTraps` | wasmjit/Enclave/wasmjit/static_runtime.c:47-154 | If initialisation traps, it is at a reachable module with an import of the wrong type, a segment that does not fit or a start function of the wrong type, in the state the completed modules have led to |
| `StaticRuntime.InitOnce` | wasmjit/Enclave/wasmjit/static_runtime.c:47-154 | Without a trap exactly the reachable modules are initialised, each start function among them has run exactly once and after those of its dependencies, diamonds included, and each inherited global, whoever of the modules initialised with its parent owns it, equals the global inherited |
| `StaticRuntime.InitGood` | wasmjit/Enclave/wasmjit/static_runtime.c:47-154 | The same from any state reached by earlier initialisations, changing no global of other modules |
| `StaticRuntime.InitIdempotent` | wasmjit/Enclave/wasmjit/static_runtime.c:51-51 | A further call for the module or anything it depends on changes nothing |
| `StaticRuntime.UnsettledDiffers` | wasmjit/Enclave/wasmjit/static_runtime.c:85-96 | The failing input: a global inherited with a module that does not initialise its owner is copied before it has its value |
| `Allocator.LoopEnds` | wasmjit/Enclave/wasmjit/sys.h:52-54 | The doubling loop ends if and only if the size is at most 2^63 - 16 or at least 2^64 - 16, where size plus header wraps |
| `Allocator.BlockHolds` | wasmjit/Enclave/wasmjit/sys.h:44-62 | Where it ends, the block holds header and size bytes if and only if the size is at most 2^63 - 16 |
| `Allocator.WrappedSize` | wasmjit/Enclave/wasmjit/sys.h:44-62 | The failing input: for 2^64 - 16 bytes the loop leaves a block of one byte |
| `Allocator.Capacity` | wasmjit/Enclave/wasmjit/sys.h:84-86 | For every size for which it ends the loop computes the first power of two that ends it |
| `Allocator.Heap.Malloc` | wasmjit/Enclave/wasmjit/sys.h:44-62 | For sizes up to 2^63 - 16: null for size 0 or when the kernel refuses, otherwise a new block whose header is in order; all others unchanged |
| `Allocator.Heap.Calloc` | wasmjit/Enclave/wasmjit/sys.h:72-96 | Null exactly on overflow, zero or refusal, otherwise a cleared block |
| `Allocator.Heap.Free` | wasmjit/Enclave/wasmjit/sys.h:65-69 | Removes the block, null is ignored |
| `Allocator.Heap.Realloc` | wasmjit/Enclave/wasmjit/sys.h:99-131 | Keeps the first min(old, new) bytes, the copy of the whole old size never exceeds the new block, the old block is gone if the address changed, all others unchanged |
| `LongPower.LPow` | demo/pridwen/NonSGX/main.c:165-182 | For every base and exponent it terminates and returns 0 with the exact power if and only if the power fits a long, so an overflowing square never rejects a representable result |
| `LongPower.StaticBump` | demo/pridwen/NonSGX/main.c:227-250 | The arithmetic of get_static_bump succeeds, with the exact value, if and only if the power of ten fits a long and the product fits 32 bits |
| `LongPower.StaticBumpExact` | demo/pridwen/NonSGX/main.c:239-250 | That is the right answer unless the coefficient is zero and the power overflows: then zero is refused although it fits |
| `LongPower.ZeroRefused` | demo/pridwen/NonSGX/main.c:239-250 | The failing input: coefficient 0 with exponent 19 |
| `AstRelease.FreeModule` | demo/pridwen/Enclave/sgxwasm/ast.c:99-194 | On an ownership tree every owned block, at any depth, is freed exactly once, in order, none is read after it is freed, and nothing else is freed |
| `AstRelease.FreeInstructions` | demo/pridwen/Enclave/sgxwasm/ast.c:83-91 | Frees what each instruction owns while the array can still be read, then the array |
| `AstRelease.FreeInstruction` | demo/pridwen/Enclave/sgxwasm/ast.c:50-81 | Frees exactly the bodies, both arms or the label array an instruction owns |
| `AstRelease.FreeSection` | demo/pridwen/Enclave/sgxwasm/ast.c:146-161 | Frees the arrays of all elements, then the section's own array; a section without an array is skipped |
| `AstRelease.ModuleComplete` | demo/pridwen/Enclave/sgxwasm/ast.c:99-194 | The blocks that are freed are exactly the pointers that occur anywhere in the tree |
| `AstRelease.ReleaseExact` | demo/pridwen/Enclave/sgxwasm/ast.c:50-91 | A sequence of frees goes through if and only if its blocks are live and different, so ownership without sharing is exactly what release needs |
| `AstRelease.SharedIsFreedTwice` | demo/pridwen/Enclave/sgxwasm/ast.c:63-73 | If two arms share an array, the frees of the instruction, whatever is live, stop at a block that is not live any more |
| `BitReversal.Swizzle` | demo/sqlite/src/c-sqlite.c:13-23 | The loop computes the reversal of as many low bits as limit has |
| `BitReversal.ReversedBit` | demo/sqlite/src/c-sqlite.c:13-23 | Bit i of the result is bit w-1-i of the argument |
| `BitReversal.Involution` | demo/sqlite/src/c-sqlite.c:13-23 | On w-bit numbers reversing twice is the identity |
| `BitReversal.Injective` | demo/sqlite/src/c-sqlite.c:13-23 | Hence no two w-bit numbers have the same image |

## Left out

- Interpreter.Module.Interpret: covers runs of any given number of turns that stay within both stacks (`Fits`), because the source checks no capacity and Dafny methods terminate; runs that never end are covered by `Theorems.RunsAgree` on values.
- Theorems.RunsAgree: speaks of runs that never go astray at a call_indirect (`Indirect.IndirectExact` says when one does), since behind such a call the standard has trapped and nothing is left to agree with; where else the C program leaves the standard, at a wrapping sum in grow_memory, a shift count not below the width and a truncation that traps too early, the evaluator says so (`Wild`).
- Theorems.EvalIsRun: likewise up to a call_indirect that goes astray.
- Theorems.RunIsEval: likewise.
- Theorems.CallDiscipline: likewise, and so the results that follow from it.
- Simulation.BasicSim: results of floating point comparisons and arithmetic, and of conversions to floats other than reinterpretation, come from a parameter (`alu`) that is the same on all levels, so IEEE rounding is not pinned down, nor that wa_fmin and wa_fmax return the number where one operand is a NaN; types, widths, tags, operand order and all traps are.
- Interpreter.Module.Numeric: has floating point arithmetic from the same parameter.
- Invoke.Invoke: takes the arguments as values; the parsing of argument strings and the search for the exported function are not modelled.
- CodeSection.LoadBody: asks for fewer than 2^32 locals, as section 5.5.13 of the standard does; the source adds in 32 bits and does not check.
- Leb.ReadLEB: asks for a terminated encoding of at most ten bytes; on a longer one the source prints a message and goes on shifting by 64 or more, which C leaves undefined.
- Blocks.FindBlocks: asks for bodies the scan can finish; on others the source prints a message and goes on.
- StaticRuntime.InitOnce: start functions are recorded, not run, so they write no globals, tables or memories.
- StaticWrites.InitWrites: the offset of a segment that names a global is the value that global has when its module is completed.
- Rules.FunctionRules: leaves open which branches to ifs are accepted beyond those without a surplus, which `Validation.Check` spells out; mutability of globals is not part of this model.
- StaticRuntime.Runtime.InitStaticModule: types and sizes of what the imports are bound to are given with the module and do not change; the type checks follow src/sgx-wasmjit/Enclave/wasmjit/runtime.c, since static_runtime.c calls them from a file that is not part of this model.
- Allocator.Heap.Malloc: asks for a size of at most 2^63 - 16; what happens on larger ones is `Allocator.LoopEnds` and `Allocator.BlockHolds`; the kernel's answer is a parameter.
- Allocator.Heap.Calloc: asks the same of a product that does not overflow.
- Allocator.Heap.Realloc: asks for a size of at most 2^63 - 16; on the sixteen largest the sum wraps there, too.
- AstRelease.FreeModule: the ten sections are one schema, an optional array of entries with up to three pointers and one instruction array each, in the order the source frees them.
- Imported functions are a parameter from argument bits to result bits: they change neither memory nor globals, and inbound thunks are not modelled.
- Block objects are values looked up by start address; the source shares pointers to them but never changes them after loading.
- A memory imported from the host, whose buffer may hold anything behind its last page, and a failing realloc, which ends the program.
- Parsing of the sections other than code, and init expressions: their results are part of the program a run starts from.
- Tables with more elements than their maximum, which the source caps at 0x10000; entries read between size and maximum are undefined here.
- The options mangle_table_index and disable_memory_bounds, which depend on host addresses.
- Tracing, warnings and the text of exceptions; resolvesym, export lookup and the generated thunks the switch of thunk_out never selects.
- Ocall stubs, enclave launch code, drivers, the JIT and its parser, the copy of `lpow` in `src/sgx-wasm`, regular expressions and number scanning in `get_static_bump`, `split_string`, `strdup`.

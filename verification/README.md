# Verified model of GameOfLifes

GameOfLifes is a grid world of agents whose brains are small programs. Programs are written in GoL Script, compiled by
`bytecode/compiler` to a byte string, shipped as `.gob` files and executed, once per agent and tick, by the C++ engine's
stack machine. The engine moves, feeds, breeds and reaps the agents on a toroidal map, logs births and deaths, and
writes snapshots that a browser frontend decodes. This project models those parts in Dafny 4.11 and proves what they
promise. `dafny verify dfyconfig.toml` checks all of it.

The project has three parts.

**Compiler and machine.** `Opcodes.dfy` and `Machine.dfy` are the instruction set and the machine as a function on
states; `VirtualMachine.dfy` is the machine as the C++ class, fixed arrays updated in place, proved to refine it.
`Tables.dfy` and `Codegen.dfy` are the translation as a function and `Emission.dfy` the emitter with its placeholders
and patches, proved to produce the same bytes. `Semantics.dfy` is an independent big-step semantics of the source, with
a budget. `Instructions.dfy`, `Correctness.dfy` and `Linking.dfy` prove that the bytes do what the source means;
`MachineLaws.dfy` has the laws of budget and stack, `Safety.dfy` proves static safety of all compiled code, and
`Jumps.dfy` locates its jumps. `Heights.dfy` checks bytes against a map of operand heights and proves that the stack
then has these heights in every run; `StackDiscipline.dfy` computes the map of a compiled program; `StackNeed.dfy`,
`StackExact.dfy` and `StackBounds.dfy` bound the stack from the source, and `Overrun.dfy` is a program beyond the bound.
`InstructionSet.dfy` says of every opcode what its documentation promises, in terms of integers, bytes and operands
alone; `Builtins.dfy` has the bytes of each builtin, and `Sizes.dfy` decides from the syntax tree which programs
generate.
The other stages have a specification, a mutable form proved against it, and their properties: `Lexer.dfy`, `Names.dfy`
and `LexerProperties.dfy`; `Tokens.dfy`, `Grammar.dfy`, `RecursiveDescent.dfy`, `ParsePrint.dfy`, `Accepted.dfy` and
`Shortest.dfy`; `Sema.dfy`, `Analyzer.dfy`, `SemaProperties.dfy`, `Calls.dfy` and `CallRules.dfy`; `Gob.dfy`.
What each stage accepts and returns is decided by a relation that names none of its functions: `SourceTexts.dfy` says
which texts spell which tokens, with any blanks and comments; `Texts.dfy` which tokens are a text of which program,
with any parentheses, `TextReading.dfy` and `OnlyTexts.dfy` that the parser returns a program exactly for its texts;
`AnalysisRules.dfy` which programs pass analysis and which local has which slot; `GobLayout.dfy` which blobs load.
`Compiler.dfy` has the end-to-end statements, `Deployed.dfy` those about the classes, `Sharing.dfy` what calls do to
their callers' variables, `Perception.dfy` what the perception sugar really leaves on the stack.

**World.** `Life.dfy`, on top of `Random.dfy` and `Biology.dfy`, is a tick of the simulation as a function, and
`Engine.dfy` the classes `World` and `Simulation`, proved to refine it. `LifeProperties.dfy`, `Scarcity.dfy`,
`Loner.dfy`, `Lineage.dfy` and `Census.dfy` hold the properties of whole runs. `Founding.dfy`, `Walks.dfy`,
`Births.dfy`, `Mutation.dfy` and `Regrowth.dfy` say from the draws, cell by cell and agent by agent, what each phase
does, and `Deeds.dfy` keeps the books of the intrinsics and of whole runs. `AgentVm.dfy` and `AgentHandlers.dfy` are
the intrinsics through which a program acts on the world, `Brain.dfy` the machine that an agent keeps between ticks and
that acts on the world in place, `Refusal.dfy` what happens to code with too many locals.

**Storage.** `Torus.dfy` is the toroidal grid and `Radio.dfy` the broadcast on it; `Base64.dfy`, `BitFields.dfy`,
`Hex.dfy` and `Snapshots.dfy` are the codecs and the snapshot fields.

Four conventions matter for reading the statements.

- The random generator is an oracle: streams of integers and of numbers from 0 to 1 of which nothing is known. A
  statement for every `Rng` is a statement for every outcome of the draws.
- `Semantics.Tick` and the machine both take a budget. `Done` is an end by itself, `Abort` a stop with a status, and
  `Wrong` stands for programs outside the fragment; the theorems show that the fragment never gets there.
- `StackOverrun` and `QuotientOverflow` are no statuses of the engine. They end a run of the model where the engine has
  no defined behaviour: a handler that pushes past the end of the stack array, and the least integer divided by -1.
  Nothing is claimed about the engine after such a point; the theorems say exactly when a run gets there.
- The fragment of semantic preservation is what `ProgramInFragment` says: value builtins are `eat`, `drink`,
  `reproduce`, `my_energy`, `my_hydration`, `my_trait(literal)` and the two terrain forms; `move`, `turn_left` and
  `turn_right` are statements; called functions end in `return e` and have no bare return. Static safety, the parser,
  the analysis and the machine laws have no such restriction.

Where code and documentation differ, the model follows the code:

- `bytecode/spec/language.md:182` promises that each perception builtin keeps only its value. The code of the food,
  water and agents forms leaves further values below it, and the water forms have the agent count on top
  (`Perception`).
- `bytecode/spec/language.md:42` allows one prefix operator; the parser accepts any number.
- `bytecode/spec/language.md:124` promises calls without forward declarations; `generate` rejects calls to functions
  that come later (`CallRules.ForwardCallFails`, and `CallRules.GeneratesExactly` for what it accepts).
- `bytecode/spec/language.md:80` calls variables local to their function; slots are shared between functions, as
  `bytecode/spec/semantics.md:43` says (`Sharing.CallChangesCaller`).
- The analysis does not reject a repeated parameter; such a function has fewer slots than parameters, and calls to it
  fail in the generator, or store an argument in another variable if its body has locals enough (`CallRules`).
- `bytecode/spec/semantics.md:33` speaks of 255 slots; compiler and machine allow 256.
- `bytecode/spec/semantics.md:99-104` charges the `my_` reads 1; `run` charges 10 for every opcode in 0x80-0x8F.
- `bytecode/spec/semantics.md:28` makes more than 256 operands a runtime error; handlers push without a check
  (`Compiler.TickFits`, `Overrun.DeepOverruns`).
- `reset_for_tick` starts a machine that `load` had refused for its local count (`Refusal.RefusalIsForgotten`).
- `bytecode/spec/format.md:25` reads the magic number as "GOLB"; it is stored little-endian, so that a file begins with
  the bytes of "BLOG" (`GobLayout.LoadsExactly`).

## Model

| member | source | states |
|---|---|---|
| VirtualMachine.Vm.constructor | engine/src/vm.cpp:7-10 | a new machine has nothing loaded, an empty stack and 256 zero locals |
| VirtualMachine.Vm.Load | engine/src/vm.cpp:12-27 | loading clears stack, locals and frames; code that wants more than 256 locals starts halted with OutOfBoundsLocal |
| VirtualMachine.Vm.SetIntrinsicHandler | engine/src/vm.cpp:29-31 | setting the handler changes nothing else of the state |
| VirtualMachine.Vm.ResetForTick | engine/src/vm.cpp:41-47 | a tick starts at byte 0 with an empty stack and no frames; locals, code and handler persist |
| VirtualMachine.Vm.Push | engine/src/vm.cpp:49-52 | pushing appends to the operand stack; there must be a free slot |
| VirtualMachine.Vm.Pop | engine/src/vm.cpp:54-57 | popping returns and removes the top operand; there must be one |
| VirtualMachine.Vm.StepBinary | engine/src/vm.cpp:165-278 | each binary opcode does to the arrays what the state function says: DivisionByZero for a zero divisor, QuotientOverflow where the C++ expression has no value (the least integer by -1), and stack underflow |
| VirtualMachine.Vm.StepStack | engine/src/vm.cpp:134-163 | POP, DUP and SWAP on the arrays refine the state function, with their underflow and overflow cases |
| VirtualMachine.Vm.StepUnary | engine/src/vm.cpp:221-294 | NEG wraps and NOT yields 0 or 1, in place on the top of the stack |
| VirtualMachine.Vm.StepPush | engine/src/vm.cpp:110-132 | PUSH_INT and PUSH_BOOL read their operand inside the code or report InvalidOpcode, overflow being checked first |
| VirtualMachine.Vm.StepControl | engine/src/vm.cpp:296-354 | jumps, CALL and RETURN move the program counter and the call stack as the state function says, with all their faults |
| VirtualMachine.Vm.StepLocal | engine/src/vm.cpp:356-384 | LOAD_LOCAL and STORE_LOCAL check room, then the index against the local count of the code |
| VirtualMachine.Vm.StepConst | engine/src/vm.cpp:386-405 | LOAD_CONST pushes an integer constant; a string constant or an index outside the pool is InvalidOpcode |
| VirtualMachine.Vm.StepIntrinsic | engine/src/vm.cpp:407-466 | an intrinsic hands its inline operand to the handler, which acts on the world, and pushes the handler's values; where they would leave the array, it stops with StackOverrun instead of the unchecked write |
| VirtualMachine.Vm.Step | engine/src/vm.cpp:91-471 | the class executes exactly the instruction that the state function Machine.Step describes, in every state |
| VirtualMachine.Vm.Run | engine/src/vm.cpp:473-493 | for every code, handler, state and budget the loop of the class ends in the state and with the status of Machine.Run |
| InstructionSet.ArithExactly | bytecode/spec/opcodes.md:21-41 | what each binary opcode makes of its operands in terms of the integers: sums, differences and products modulo 2^32, the quotient toward zero with the remainder of the dividend's sign, truth values; and exactly when a division fails and how |
| InstructionSet.ShufflesExactly | bytecode/spec/opcodes.md:11-19 | POP, DUP, SWAP and NOP on operands that are written out |
| InstructionSet.ComputesExactly | engine/src/vm.cpp:165-278 | a binary opcode takes the two operands on top, the later one on the right, and leaves that result alone in their place |
| InstructionSet.NegatesExactly | engine/src/vm.cpp:221-294 | NEG leaves the value whose sum with the operand is 0 modulo 2^32, NOT leaves 1 exactly for 0 |
| InstructionSet.MovesDataExactly | engine/src/vm.cpp:110-405 | the literals, locals and constants: what PUSH_INT spells in four little-endian bytes is pushed, a load reads and a store changes the named slot only |
| InstructionSet.TransfersExactly | engine/src/vm.cpp:296-354 | where JMP, JMP_IF_FALSE, CALL and RETURN go, computed from the bytes: relative to the operand's own position, only on 0, to the absolute address, and back behind the call; RETURN without a frame and HALT end the tick |
| InstructionSet.StackFaultsExactly | engine/src/vm.cpp:91-471 | for every opcode exactly when it reports an underflow or overflow |
| InstructionSet.OperandFaultsExactly | engine/src/vm.cpp:91-471 | exactly when an instruction reports a zero divisor, a slot or a jump out of bounds, calls nested too deeply, a constant that is none, or a missing handler |
| InstructionSet.BrokenCodeFaults | engine/src/vm.cpp:91-471 | past the end of the code the machine halts; unknown opcodes are InvalidOpcode, and so are cut off operands, except those of jumps and calls and of a trait without handler, whose faults it names |
| InstructionSet.IntrinsicsExactly | bytecode/spec/opcodes.md:65-81 | byte 0x80 + k asks the handler for the k-th intrinsic of the documentation, 0x8A for the trait that the next byte names; the handler acts first, then its values are pushed or do not find room |
| InstructionSet.EndlessRecursion | bytecode/spec/semantics.md:46-63 | a function that calls itself without end ends in CallDepthExceeded with 32 frames, at the 33rd call |
| MachineLaws.LargerBudget | engine/src/vm.cpp:473-493 | a run that ends for another reason than its budget ends with the same status and state under every larger budget |
| MachineLaws.ExhaustedResumes | engine/src/vm.cpp:473-493 | a run exhausted with r unspent (r < 10): running with a + b is continuing from its state with r + b |
| MachineLaws.ExactCost | engine/src/vm.cpp:473-493 | a run that ends by itself has one cost: with that or more it ends the same way, with less it is exhausted |
| MachineLaws.StepNeverExhausts | engine/src/vm.cpp:91-471 | no instruction reports BudgetExhausted: only the loop of run does |
| MachineLaws.BudgetConserved | engine/src/vm.cpp:473-493 | k intrinsics and m other instructions executed and r left: 10 k + m + r is the budget |
| MachineLaws.StepKeepsControl | engine/src/vm.cpp:91-471 | for arbitrary bytes one step keeps the program counter and all return addresses inside the code or at its end, and at most 32 frames |
| MachineLaws.RunKeepsControl | engine/src/vm.cpp:473-493 | so does every run, from any such state, with any handler and budget |
| MachineLaws.StepGrowth | engine/src/vm.cpp:91-471 | an intrinsic adds at most 4 operands and another instruction at most 1; the stack stays within 256 |
| MachineLaws.StackWithinSpent | engine/src/vm.cpp:473-493 | the operand stack never grows by more than the budget spent |
| MachineLaws.RunFitsWhen | engine/src/vm.cpp:49-52 | the unchecked pushes stay inside the stack array for intrinsic-free code, and for any code started empty with a budget of at most 256 |
| MachineLaws.StepOverrunsExactly | engine/src/vm.cpp:407-466 | a step reports StackOverrun if and only if it is an intrinsic whose handler pushes more values than there is room for |
| MachineLaws.RunFitsExactly | engine/src/vm.cpp:407-493 | the unchecked pushes of a whole run stay inside the stack array if and only if it does not end in StackOverrun |
| MachineLaws.Perceives | engine/src/agent_vm.cpp:31-45 | n PERCEIVE bytes in a row hold 4 n operands up to n = 64; the 65th pushes past the end of the array, in every world |
| Heights.StepAccounted | engine/src/vm.cpp:91-471 | bytes that check against a map of heights: a step keeps the operand stack at exactly the callers' operands plus the height at the program counter, and never underflows |
| Heights.RunAccounted | engine/src/vm.cpp:473-493 | so does every run, with any well-behaved handler and any budget, wherever the budget stops it |
| Heights.RunInRoom | engine/src/vm.cpp:473-493 | checked bytes with heights of at most 8 never exceed the stack array, by a checked push or an unchecked one, in 32 frames |
| Instructions.RunBinary | engine/src/vm.cpp:165-278 | in any run, a binary opcode at the program counter replaces the two top operands by their result or ends the run with DivisionByZero or QuotientOverflow |
| Instructions.RunJumpIfFalse | engine/src/vm.cpp:309-326 | a conditional jump lands at operand position plus offset exactly when the operand popped is 0 |
| Instructions.RunCall | engine/src/vm.cpp:328-343 | CALL pushes the address behind its operand, or reports CallDepthExceeded at 32 frames |
| Codegen.LocalCount | bytecode/compiler/codegen.py:185-188 | the local count is an upper bound of all functions' locals, and 0 or one of them |
| Emission.Emitter.PatchI16 | bytecode/compiler/codegen.py:144-148 | patching overwrites two bytes in place and leaves all others |
| Emission.Emitter.EmitExpr | bytecode/compiler/codegen.py:286-390 | the emitter appends exactly the code that the translation function gives for the expression, or fails with its error |
| Emission.Emitter.EmitCall | bytecode/compiler/codegen.py:366-390 | arguments left to right, stores last argument first, CALL with the address of a function already placed; anything else is an error |
| Emission.Emitter.EmitStmt | bytecode/compiler/codegen.py:206-283 | the emitter appends exactly the code of the statement |
| Emission.Emitter.EmitIfThen | bytecode/compiler/codegen.py:235-259 | emitting with a placeholder and patching it gives the bytes of the translation function or its error; Jumps.IfThenJumps locates the jump and Sizes.StmtExact says exactly when its distance fits |
| Emission.Emitter.EmitIfElse | bytecode/compiler/codegen.py:235-256 | the same with two placeholders; Jumps.IfElseJumps locates the jumps, Sizes.StmtExact says when they fit |
| Emission.Emitter.EmitWhile | bytecode/compiler/codegen.py:261-277 | the same with the backward jump and the patched exit; Jumps.WhileJumps locates them, Sizes.StmtExact says when they fit |
| Emission.Emitter.EmitFunctions | bytecode/compiler/codegen.py:165-171 | functions are laid out in order, each with its address recorded before its body and an implicit RETURN behind it |
| Emission.MaxLocals | bytecode/compiler/codegen.py:186-188 | the loop over the function table computes LocalCount |
| Emission.Generate | bytecode/compiler/codegen.py:150-192 | the whole generator, patches included, produces exactly the bytes and the local count of the translation function, or its error; Sizes.GeneratesIff says for which programs there is code |
| Sizes.ExprExact | bytecode/compiler/codegen.py:286-390 | an expression gets code only if its literals are int32 and its trait numbers literals, and the code has the size computed from the syntax tree; if they are and addresses have 16 bits, only a missing name, slot or callee stands in the way |
| Sizes.StmtExact | bytecode/compiler/codegen.py:206-283 | the same for a statement, where besides every distance that a jump in it has to go, computed from the sizes of its parts, must lie in -32768..32767 |
| Sizes.GeneratesIff | bytecode/compiler/codegen.py:150-192 | an analyzed program generates if and only if it has a main, every callee is defined no later than its caller and has slots for its arguments, literals and trait numbers fit, every if and while distance computed from the syntax tree lies in -32768..32767, main lies below 0x8000, the total is at most 65535 bytes and no function has more than 256 locals; the code then has that total size |
| Jumps.IfThenJumps | bytecode/compiler/codegen.py:235-259 | wherever the code of an if stands, its decoded jump lands on the end of the statement, behind the block |
| Jumps.IfElseJumps | bytecode/compiler/codegen.py:235-256 | the decoded jump on 0 lands on the first byte of the else branch, and the one behind the first branch on the end |
| Jumps.WhileJumps | bytecode/compiler/codegen.py:261-277 | the decoded exit jump lands on the end of the loop, the backward jump on the first byte of the condition |
| Jumps.CallGoes | bytecode/compiler/codegen.py:366-390 | behind the stores stands CALL with exactly the address recorded for the callee |
| Correctness.ExprCorrect | bytecode/compiler/codegen.py:286-390 | the bytes of an expression, run anywhere, leave its source value on top of the operands that were there, with its store effects and exact cost, or stop where and as the source does |
| Correctness.BinaryCorrect | bytecode/compiler/codegen.py:310-332 | left operand, right operand, operator; !=, <= and >= as negations; a zero divisor stops at the same point with the same store |
| Correctness.CallCorrect | bytecode/compiler/codegen.py:366-390 | a compiled call evaluates arguments left to right, puts argument i in slot i, runs the body on the shared slots and comes back behind the CALL with one new value; recursion included, up to 32 frames |
| Correctness.EnterCorrect | engine/src/vm.cpp:328-354 | from the CALL on: one frame deeper or CallDepthExceeded, and back with the returned value |
| Correctness.SimPass | bytecode/compiler/codegen.py:370-374 | the stores before a CALL move the arguments from the stack to slots 0, 1 and so on and leave the operands below alone |
| Correctness.LeavesWithValue | bytecode/compiler/codegen.py:169-171 | a body without a bare return that ends in a return always leaves with a value |
| Correctness.StmtCorrect | bytecode/compiler/codegen.py:206-283 | the bytes of a statement change locals and world as the statement does, at its exact cost, and go on behind it, return, or stop as it does |
| Correctness.IfElseCorrect | bytecode/compiler/codegen.py:235-256 | exactly one branch runs, after which control is behind the statement |
| Correctness.WhileCorrect | bytecode/compiler/codegen.py:261-277 | the loop runs as often as in the source, for every budget |
| Correctness.BodyCorrect | bytecode/compiler/codegen.py:166-171 | a function body with its implicit return gives control back to its caller with the frame removed |
| Linking.LaidOut | bytecode/compiler/codegen.py:165-171 | every function's code stands at its address in the final image, generated with addresses that agree with the final ones |
| Linking.GeneratedShape | bytecode/compiler/codegen.py:155-192 | an image is CALL main, HALT and the functions; it has at most 65535 bytes, main below 0x8000, and at most 256 locals |
| Linking.CompilerCorrect | bytecode/compiler/codegen.py:150-192 | semantic preservation at byte level for every program of the fragment, every handler with the documented push counts, every store and every budget: same end (StackOverrun and QuotientOverflow included), locals, world and unspent budget |
| Compiler.TickCorrect | bytecode/spec/semantics.md:5-11 | the same from the parsed program on: analysis, generation and a VM tick against a source tick |
| Compiler.FaultsOfTheFragment | bytecode/spec/semantics.md:46-63 | a tick of such a program ends Halted, BudgetExhausted, StackOverflow, DivisionByZero, CallDepthExceeded, or in StackOverrun or QuotientOverflow, which mark undefined behaviour of the engine; never with a stack underflow or a fault of the code |
| Compiler.TickFits | engine/src/vm.cpp:49-52 | the handlers' unchecked pushes stay inside the stack array of a tick if and only if the source tick does not end in StackOverrun |
| Overrun.DeepIsReadable | bytecode/compiler/parser.py:184-192 | the source text with 42 nested groups around 1 + perceive_terrain() is accepted by lexer and parser and is that program |
| Overrun.DeepOverruns | engine/src/agent_vm.cpp:31-45 | that program is in scope, and in every world, from every store and with every budget of at least 264 its tick pushes past the end of the stack array |
| Overrun.DeepIsOneTooDeep | bytecode/compiler/parser.py:184-192 | it nests 43 deep, one more than StackBounds.ShallowMainSuffices admits |
| StackDiscipline.CompiledChecks | bytecode/compiler/codegen.py:150-192 | the bytes of every program of the fragment check against the heights computed from its syntax tree |
| StackDiscipline.TickHeights | bytecode/spec/semantics.md:24-29 | in every tick of such a program, wherever the budget stops it, the operand stack has exactly the size that the static heights at the program counter and the return addresses give; it never underflows |
| StackDiscipline.LowHeightsSuffice | engine/src/vm.cpp:49-52 | if those heights are at most 8, no tick ends in StackOverflow or StackOverrun |
| StackNeed.EvalInRoom | bytecode/compiler/codegen.py:286-390 | an expression whose peak, computed from the source and the calls left, fits above the operands present is evaluated without StackOverflow or StackOverrun, for every budget and world |
| StackNeed.ExecInRoom | bytecode/compiler/codegen.py:194-203 | so is a statement list |
| StackNeed.PeakByNesting | bytecode/compiler/parser.py:184-285 | without user calls the peak is at most 6 times the nesting plus 7 less the level, and 3 more with terrain forms, however long the operator chains |
| StackBounds.PeakSuffices | engine/src/vm.cpp:49-52 | a program whose main has a peak of at most 256 never exceeds the stack array: no StackOverflow, no StackOverrun, and RunFits for every budget |
| StackExact.PeakIsReached | bytecode/compiler/codegen.py:286-341 | without user calls, an evaluation that ends has had its whole peak on the stack |
| StackExact.PlainEvaluatesExactly | bytecode/compiler/codegen.py:286-341 | with budget enough, an expression without user calls and divisions has a value if and only if its peak fits above the operands present |
| StackBounds.StraightMainExactly | engine/src/vm.cpp:49-52 | for a main without branches, calls and divisions, with budget enough, the stack array suffices if and only if the peak is at most 256 |
| StackBounds.SmallFramesSuffice | engine/src/vm.cpp:328-343 | nor does one whose functions need at most 8 slots a frame, recursion included |
| StackBounds.ShallowMainSuffices | bytecode/compiler/parser.py:184-192 | nor does one whose main calls no functions and nests at most 42 deep |
| StackBounds.ParsedIsShallow | bytecode/compiler/parser.py:184-285 | what the parser accepts with n levels left nests at most n deep and, without user calls, needs at most 6 n + 1 operands, or 6 n + 4 with perception |
| Compiler.TickCost | engine/src/vm.cpp:473-493 | a source tick that ends has a cost, and it is the smallest budget with which the VM halts in that store |
| Compiler.TickSafe | bytecode/compiler/codegen.py:150-192 | every compiled program, in the fragment or not, up to StackOverrun or QuotientOverflow: no InvalidOpcode, OutOfBoundsJump or OutOfBoundsLocal, and the program counter on an instruction boundary |
| Compiler.ShippedBytecode | bytecode/compiler/emit.py:12-34 | a compiled program written to a .gob blob loads as exactly the bytecode that the theorems run, which the VM does not refuse |
| Compiler.BrainRemembers | bytecode/spec/semantics.md:11-11 | over any number of ticks, worlds changing in between, the VM's locals are what the source program would remember, ticks that fault or run out included |
| Deployed.RunTick | engine/src/vm.cpp:41-493 | a reset and a run of the class Vm on a compiled program end, for every budget, with the status, locals, world and operands of the source tick |
| Deployed.TickBrain | engine/src/brain_bytecode.cpp:8-25 | a tick of the class BytecodeBrain on a World, the first one or a later one, leaves memory and world as the source tick says, and touches no other agent; when the agent is not to be found, nothing changes |
| Sharing.EvalLeaves | bytecode/spec/semantics.md:35-44 | an expression whose callees, and all that these reach, have at most k locals changes no slot from k on |
| Sharing.CallLeavesAll | bytecode/spec/language.md:80-80 | a call leaves all variables of its caller alone when no function that it reaches has a local |
| Sharing.CallChangesCaller | bytecode/spec/language.md:80-80 | fn f(x) { return x; } fn main() { let a = 1; let b = f(5); } ends with 5 in a, in every world and from every store |
| Refusal.RefusalIsForgotten | engine/src/brain_bytecode.cpp:8-14 | code that load refuses for its local count changes nothing in the first tick, and in the second does step for step what the same code with 256 locals does in its first |
| Refusal.RefusedMover | engine/src/vm.cpp:12-47 | MOVE, HALT with 257 locals moves nobody in the first tick, and in the second exactly when the budget is at least 10 |
| Safety.StmtClosed | bytecode/compiler/codegen.py:206-283 | the code of every statement is whole instructions whose jumps land on instruction boundaries of it or its end, whose locals are below the count and whose calls go to entries |
| Safety.FunctionsTight | bytecode/compiler/codegen.py:165-171 | in the image no instruction falls off the end, all jumps stay on boundaries and all calls go to function addresses |
| Safety.StepSafe | engine/src/vm.cpp:91-471 | a step of such code never reports a fault of the code and stays on instruction boundaries, return addresses included |
| Safety.RunSafe | engine/src/vm.cpp:473-493 | nor does any run, with any handler and budget, up to a StackOverrun or QuotientOverflow, which end it |
| Safety.GeneratedSafe | bytecode/compiler/codegen.py:150-192 | whatever generate returns is such code, with no restriction on the program |
| Safety.CompiledCodeSafe | bytecode/compiler/codegen.py:150-192 | the two together: static safety of all compiled code, up to those two statuses |
| Perception.SugarEffect | bytecode/compiler/codegen.py:102-114 | running the code of a perception builtin leaves exactly one (terrain), two (food), three (water) or all four (agents) of the perceived values, or ends in StackOverrun when there is no room for four |
| Perception.OneValueExactlyForTerrain | bytecode/spec/language.md:173-184 | what the language promises, the desired value alone, holds if and only if the builtin is a terrain form |
| Perception.TopIsPromisedExactly | bytecode/spec/language.md:173-184 | the value on top is the promised one if and only if the builtin is no water form or the water and agent counts are equal |
| Perception.WaterReadsAgents | bytecode/compiler/codegen.py:107-107 | a run in which perceive_water() yields the agent count |
| Builtins.ActBuiltins | bytecode/compiler/sema.py:24-46 | the names of the senses and acts, each its own builtin |
| Builtins.ReportBuiltins | bytecode/compiler/sema.py:24-46 | the names of my_energy, my_hydration and my_trait |
| Builtins.BuiltinBytes | bytecode/compiler/codegen.py:53-114 | the very bytes of a call of each builtin without parameters, in every function of every program |
| Builtins.TraitBytes | bytecode/compiler/codegen.py:351-357 | my_trait of a literal is 0x8A and its low byte; anything else is an error |
| Analyzer.FunctionInfo.ResolveOrAllocLocal | bytecode/compiler/sema.py:62-66 | resolving returns the slot of a known name and gives a new name the next slot |
| Analyzer.CheckExpr | bytecode/compiler/sema.py:134-168 | the walk over an expression allocates the names of the specification in its order and reports its error |
| Analyzer.CheckStmt | bytecode/compiler/sema.py:110-131 | the same for statements |
| Analyzer.RegisterAll | bytecode/compiler/sema.py:88-92 | the first pass registers all functions with their arities or reports the first duplicate |
| Analyzer.CheckFunction | bytecode/compiler/sema.py:95-100 | parameters first, then the body, in the function's own record |
| Analyzer.CheckNext | bytecode/compiler/sema.py:95-100 | checking one function fills in its record and leaves those of the others as they were |
| Analyzer.Analyze | bytecode/compiler/sema.py:84-102 | the two passes over mutable records give the table of the specification, or its error |
| SemaProperties.AnalyzeGives | bytecode/compiler/sema.py:55-102 | after success: one entry per function, arities as declared, no name in two slots, distinct parameters in the first slots in order |
| AnalysisRules.AnalyzesExactly | bytecode/compiler/sema.py:84-168 | analysis accepts a program if and only if no two functions share a name and every call anywhere in it is of a builtin with its number of arguments, one for my_trait and none for the others, or else of a function of the program with as many as it declares |
| AnalysisRules.SlotsExactly | bytecode/compiler/sema.py:62-131 | the slots of a function hold exactly the names that occur in it, parameters before the body, in the order of first occurrence, the target of an assignment behind its value |
| CallRules.AnalyzedNamesFound | bytecode/compiler/codegen.py:217-227 | in an analyzed program a function that generates has a slot in the callee for every argument of every call; and if all calls of a function have them, generating it misses no variable, function or slot |
| CallRules.DistinctParametersHaveSlots | bytecode/compiler/sema.py:97-99 | all calls have them when no function repeats a parameter |
| CallRules.GeneratesExactly | bytecode/compiler/codegen.py:376-390 | the functions of an analyzed program generate only if every callee is defined no later than its caller and has a slot for each argument; if so, no name, slot or forward call stands in the way |
| CallRules.ForwardCallFails | bytecode/compiler/codegen.py:385-390 | fn main() { f(); } fn f() {} passes analysis and fails in the generator |
| CallRules.RepeatedParameterHasNoSlot | bytecode/compiler/codegen.py:370-374 | fn f(a, a) {} generates when nobody calls it; with fn main() { f(1, 2); }, which analysis accepts, generation fails |
| CallRules.SecondArgumentGoesAstray | bytecode/compiler/codegen.py:370-374 | for fn f(a, a) { let b = 0; } the call f(1, 2) generates and stores its second argument in b |
| CallRules.ParametersInOrderExactly | bytecode/compiler/sema.py:97-99 | argument i is stored in the slot of parameter i for all i if and only if no parameter is repeated |
| SemaProperties.StoreArgsFindsSlots | bytecode/compiler/codegen.py:370-374 | the stores of a call find their slots if and only if the callee has at least as many locals as there are arguments |
| Lexer.Tokenize | bytecode/compiler/lexer.py:82-176 | the scanner returns the tokens of the maximal-munch specification, or its error; SourceTexts.LexesExactly says independently which texts have which tokens |
| SourceTexts.LexesExactly | bytecode/compiler/lexer.py:82-176 | the lexer returns these tokens and EOF if and only if the text spells them, with any blanks, newlines and comments between and around them, or nothing where the next character cannot continue the token |
| SourceTexts.CommentEndsWithLine | bytecode/spec/language.md:59-59 | a comment ends at its newline, and what follows is read as if it stood alone; without a newline it is the rest of the text |
| Tokens.FrontDigit | bytecode/compiler/parser.py:252-257 | a digit in front of k others counts that many times the k-th power of ten, so zeros in front change nothing |
| LexerProperties.LexGives | bytecode/compiler/lexer.py:110-176 | a tokenized text ends in the only EOF; integers are digits, names are identifiers and no keywords |
| LexerProperties.LexRender | bytecode/compiler/lexer.py:82-176 | tokenizing valid tokens written with spaces between gives them back and one EOF |
| LexerProperties.SourceReadBack | bytecode/spec/language.md:12-54 | tokenizing and parsing the printed text of any program within the limits returns the same AST |
| LexerProperties.AcceptedSource | bytecode/compiler/parser.py:294-299 | parse, print, parse is parse: for every accepted source text |
| RecursiveDescent.Parser.Expression | bytecode/compiler/parser.py:184-192 | the method consumes and returns what the grammar function does, and restores the depth counter except after the error that reports too deep nesting |
| RecursiveDescent.Parser.Level | bytecode/compiler/parser.py:194-240 | each precedence loop builds left-associated operators of its level only |
| RecursiveDescent.Parser.UnaryExpr | bytecode/compiler/parser.py:242-247 | prefix operators, repeated ones too |
| RecursiveDescent.Parser.Primary | bytecode/compiler/parser.py:249-291 | literals in int32 range, names, calls and parentheses as the grammar function reads them, or an error |
| RecursiveDescent.Parser.Statement | bytecode/compiler/parser.py:102-119 | statements are chosen by their first tokens as the grammar function chooses |
| RecursiveDescent.Parser.LooksLikeAssignment | bytecode/compiler/parser.py:121-127 | the lookahead never reads past the end and agrees with the grammar function |
| RecursiveDescent.Parser.IfStmt | bytecode/compiler/parser.py:144-159 | if with an optional else block |
| RecursiveDescent.Parser.WhileStmt | bytecode/compiler/parser.py:161-167 | while with its block |
| RecursiveDescent.Parser.Block | bytecode/compiler/parser.py:92-98 | statements up to the closing brace; each round consumes a token |
| RecursiveDescent.Parser.Function | bytecode/compiler/parser.py:73-90 | a function definition |
| RecursiveDescent.Parser.Parse | bytecode/compiler/parser.py:67-71 | on every EOF-terminated token list the parser stays inside it and ends in the AST or the error of the grammar function; OnlyTexts.ParsesExactly says independently what the AST is |
| TextReading.ReadsProgram | bytecode/compiler/parser.py:67-291 | every text of a program, with any pairs of parentheses around any of its expressions down to the depth limit, is read as that program |
| OnlyTexts.ParsesExactly | bytecode/compiler/parser.py:67-291 | the parser returns a program if and only if the tokens are a text of it; the relation names no parser and says which operators associate, which levels need parentheses, and what is rejected |
| LexerProperties.SourceParsesExactly | bytecode/compiler/parser.py:294-299 | a source text is accepted as a program if and only if it spells, with any blanks and comments, tokens that are a text of it |
| ParsePrint.PrintedExpr | bytecode/compiler/parser.py:184-285 | an expression printed at any level is a text of it, so it is parsed back whole wherever it stands |
| ParsePrint.ProgramReadBack | bytecode/compiler/parser.py:67-291 | the printed tokens of every program within the nesting limit parse to that program |
| Accepted.ParsePrintParse | bytecode/compiler/parser.py:67-291 | whatever parses is within the limits of the printer, and its print parses to the same program |
| Shortest.PrintedIsShortest | bytecode/compiler/parser.py:67-291 | no token list that parses to a program is shorter than its printed text, so the printer writes no parentheses that could be left out |
| Words.U16RoundTrip | engine/src/bytecode.cpp:8-10 | a little-endian 16-bit word is read back where it was written |
| Words.I16RoundTrip | engine/src/vm.cpp:70-77 | so is a signed one |
| Words.I32RoundTrip | engine/src/vm.cpp:79-89 | and a signed 32-bit word |
| Gob.EmitGob | bytecode/compiler/emit.py:12-34 | the writer's loop produces header, pool and code, or fails when a field is out of range |
| Gob.LoadBytecode | engine/src/bytecode.cpp:24-88 | the loader's result or first error, on arbitrary bytes, never reading outside them |
| Gob.LoadInvertsEmit | engine/src/bytecode.cpp:24-88 | for all code, constants and local counts in range, loading what was written gives exactly those back |
| GobLayout.LoadsExactly | engine/src/bytecode.cpp:24-88 | a blob loads as this code if and only if it begins with the bytes 42 4C 4F 47, version 1, the counts and the constants in their encoding, and has the code behind them; so a wrong magic number, version, tag or length is rejected, and nothing else is |
| GobLayout.WritesExactly | bytecode/compiler/emit.py:12-34 | what the writer produces is such a blob, with zero flags and nothing behind the code |
| Gob.LoadedInsideBlob | engine/src/bytecode.cpp:81-88 | an accepted blob contains the loaded code behind its header, of the size its header states |
| Brain.BytecodeBrain.Tick | engine/src/brain_bytecode.cpp:8-25 | the first tick loads and later ones reset; without the agent nothing runs, otherwise machine and World end, in place, as the run in the agent's scene does |
| Brain.BytecodeBrain.Dispatch | engine/src/vm.cpp:407-466 | each intrinsic reaches the handler method of its own, which does to the World what the handler function says |
| Brain.BytecodeBrain.RunIn | engine/src/vm.cpp:473-493 | the loop of the machine with the handler class acting on the World refines Machine.Run on the scene |
| AgentVm.HandleTame | engine/src/agent_vm.cpp:65-144 | no intrinsic changes another agent, sows, or makes energy |
| AgentVm.RunTame | engine/src/agent_vm.cpp:31-184 | whatever bytes an agent runs and however the run ends, a StackOverrun being an end: other agents are as before, new ones are its children with the next ids, food and water only shrink, and energy plus three times the food never grows |
| AgentVm.TameKeepsInvariants | engine/src/agent_vm.cpp:123-144 | so ids stay in order and cells stay 0 or 1 |
| AgentVm.AgentProgramCorrect | engine/src/agent_vm.cpp:31-184 | compiled programs run on these intrinsics as their source means, and tamely |
| AgentHandlers.AgentIntrinsicHandler.HandlePerceive | engine/src/agent_vm.cpp:31-45 | terrain, food, water and the cached agent count of the agent's cell |
| AgentHandlers.AgentIntrinsicHandler.HandleLook | engine/src/agent_vm.cpp:47-63 | the same of the wrapped cell ahead |
| AgentHandlers.AgentIntrinsicHandler.HandleMove | engine/src/agent_vm.cpp:65-81 | one cell ahead for the terrain surcharge, swimming considered |
| AgentHandlers.AgentIntrinsicHandler.HandleTurnLeft | engine/src/agent_vm.cpp:83-87 | a quarter turn, nothing else |
| AgentHandlers.AgentIntrinsicHandler.HandleTurnRight | engine/src/agent_vm.cpp:89-93 | a quarter turn the other way |
| AgentHandlers.AgentIntrinsicHandler.HandleEat | engine/src/agent_vm.cpp:95-107 | the handler does to the World in place what the handler function says, which Deeds.EatExactly states in full: food becomes energy, capped at 100000, and the gain before capping is pushed |
| AgentHandlers.AgentIntrinsicHandler.HandleDrink | engine/src/agent_vm.cpp:109-121 | the same for water |
| AgentHandlers.AgentIntrinsicHandler.HandleReproduce | engine/src/agent_vm.cpp:123-144 | below the threshold nothing and 0; otherwise a child at once and 1 |
| AgentHandlers.AgentIntrinsicHandler.HandleMyEnergy | engine/src/agent_vm.cpp:146-149 | the agent's energy |
| AgentHandlers.AgentIntrinsicHandler.HandleMyHydration | engine/src/agent_vm.cpp:151-154 | the agent's hydration |
| AgentHandlers.AgentIntrinsicHandler.IsValid | engine/src/agent_vm.cpp:27-29 | whether the index is that of an agent, which all intrinsics need |
| AgentHandlers.AgentIntrinsicHandler.HandleMyTrait | engine/src/agent_vm.cpp:156-182 | the decoded trait, or 0 for an unknown id |
| Deeds.EatExactly | engine/src/agent_vm.cpp:95-107 | eating empties the agent's own cell of food and no other; what left the land times forage is pushed, and energy becomes the smaller of 100000 and itself plus that; on a cell without food nothing happens and 0 is pushed |
| Deeds.DrinkExactly | engine/src/agent_vm.cpp:109-121 | the same for water and hydration |
| Deeds.MoveExactly | engine/src/agent_vm.cpp:65-93 | a move goes one cell ahead for the surcharge of its terrain and changes nothing else; a turn changes the direction alone |
| Deeds.ReproduceExactly | engine/src/agent_vm.cpp:123-144 | below the threshold 0 is pushed and nothing happens; otherwise 1, the agent keeps the larger half of its energy, and a newborn with the other half, the next id and a mutated genome joins on a neighbouring cell, one generation on |
| Deeds.LookExactly | engine/src/agent_vm.cpp:31-63 | perceive and look push terrain number, food, water and agent count, in this order, of the own cell or of the one ahead |
| Deeds.PerceiveCountsTheLiving | engine/src/world.cpp:107-129 | with counts as a rebuild leaves them the last of these is the number of live agents on the cell |
| Deeds.ReadExactly | engine/src/agent_vm.cpp:146-184 | the reads push energy, hydration or the trait of the number, as 32-bit values, and change nothing |
| Deeds.DeedLedger | engine/src/agent_vm.cpp:31-184 | the books of one intrinsic: total energy, the agent's hydration, the food of the whole land and the number of agents change by exactly what it eats, drinks, pays and bears |
| Deeds.RunLeads | engine/src/vm.cpp:407-493 | a run does to its world exactly what the intrinsics that it carries out do, one after the other |
| Deeds.RunLedger | engine/src/vm.cpp:407-493 | the ledger of a whole run, for any bytes, state and budget: total energy changes by exactly what is eaten, capped, less the surcharges of moves; hydration by what is drunk; the food on the land by what is eaten; the population by its births |
| Random.UniformInt | engine/src/rng.cpp:10-16 | a draw lies in its range |
| Random.Chance | engine/src/rng.cpp:23-31 | never for p <= 0 and always for p >= 1, without a draw |
| Biology.MapByteNearest | engine/src/traits.cpp:6-9 | the mapped byte is the one integer nearest to the exact interpolation |
| Biology.GenesToTraits | engine/src/traits.cpp:11-21 | each of the first six genes drives its own trait and no other, upwards; the other genes are not expressed |
| Walks.TraitsAre | engine/src/traits.cpp:11-21 | each trait is the one integer nearest to its own gene interpolated onto its own range: vision 1..5, speed 1..3, metabolism 1..5, threshold 50..200, swim 0..3, forage 1..3 |
| Biology.SeasonsOfTheYear | engine/src/world_clock.cpp:20-48 | each season is exactly its quarter of the year, winter with what is over, and regrowth is scaled by 1.5, 1.2, 0.8 and 0.4; 1.0 without a year, 1.5 for years shorter than 4 |
| Biology.SeasonsReturn | engine/src/world_clock.cpp:20-34 | seasons repeat year by year |
| Biology.MutateNever | engine/src/genome.cpp:13-23 | without a mutation rate a child has its parent's genome |
| Mutation.MutateExactly | engine/src/genome.cpp:13-23 | each bit of the child's genome, from the lowest of the first byte on, is the parent's, flipped exactly when the draw of its own is below the rate |
| Walks.TurnsAreQuarters | engine/src/direction.cpp:5-45 | the four directions step one cell up, right, down and left; a right turn is the next of them, a left turn the one before |
| Biology.EntryCost | engine/src/simulation.cpp:39-43 | plain and forest cost 1, rock 2, and water 3, 2 or 1 for swim 0, 1 or more |
| Engine.World.constructor | engine/src/world.cpp:5-10 | a new world is plain everywhere, with nothing on its cells, no agents and no counts |
| Engine.World.Init | engine/src/world.cpp:12-62 | the terrain of each cell is what its own draw selects, food lies exactly on the drawn cells, water exactly on water cells, minerals on the rock cells whose chances come up; agents stand on drawn cells with drawn genomes, with ids 0, 1 and so on, generation 0, and the configured energy and hydration |
| Founding.TerrainShares | engine/src/world.cpp:12-27 | of the 100 rolls thirty give forest, ten water, ten rock and fifty plain |
| Founding.MinesExactly | engine/src/world.cpp:47-55 | each rock cell has a unit of minerals if and only if its own draw, the one after those of the rock cells before it, is below 0.3 |
| Engine.World.SpawnAgent | engine/src/world.cpp:73-86 | a new agent at the end of the vector with the next id |
| Engine.World.SpawnChild | engine/src/world.cpp:88-105 | a child at the end of the vector with the next id, its parent's id and its generation |
| Engine.World.RebuildCaches | engine/src/world.cpp:107-125 | the loops leave the counts and the index map that the cache lemmas speak of |
| Engine.World.AgentCountAt | engine/src/world.cpp:127-129 | reads the count of the wrapped cell |
| Engine.World.AgentIndexById | engine/src/world.cpp:131-137 | the index of a known id, or none |
| Engine.World.StepAgent | engine/src/simulation.cpp:21-82 | one agent's step in place refines the step function; no other agent changes |
| Walks.MovesWalk | engine/src/simulation.cpp:28-70 | the moves of a step follow the path of their draws, empty its cells of food, water and minerals and no others, gain what was there and pay the path's surcharges |
| Walks.StepExactly | engine/src/simulation.cpp:21-82 | a step in full: as many moves as the speed, their end, gains and surcharges, the metabolism, one water less, and alive afterwards if and only if energy and water are left; a dead agent does nothing |
| Engine.World.MutateGenome | engine/src/genome.cpp:13-23 | each bit flips by its own draw, byte by byte |
| Engine.World.ReproduceAgent | engine/src/simulation.cpp:94-123 | one agent's part of reproduction, in place as in the model; Births.BirthsExactly says independently when and with what there is a birth |
| Engine.World.RespawnResources | engine/src/simulation.cpp:132-172 | the row by row regrowth refines the regrowth function over cell numbers, which Regrowth.RespawnExactly determines cell by cell |
| Regrowth.RespawnExactly | engine/src/simulation.cpp:132-172 | a cell that holds something keeps it, an empty one gets one unit exactly if a draw is below the chance that a table gives for its terrain, the spawn rate and the season; terrain stays |
| Regrowth.GrowthOfTheTick | engine/src/simulation.cpp:188-197 | in a tick cells grow once, in the season of its number, out of what the steps left |
| Engine.Simulation.StepAgents | engine/src/simulation.cpp:190-192 | the loop over the agents is the step phase |
| Engine.Simulation.ReproduceAgents | engine/src/simulation.cpp:84-130 | parents pay while births are collected, then the children join and are logged in order, as in the model whose births Births.NewbornsExactly determines |
| Births.BirthsExactly | engine/src/simulation.cpp:94-123 | the births are, in order, one for each agent that is alive with energy at least the threshold of its genome, and none for others; each has half of the energy, a bit by bit mutated genome and a neighbouring cell, and only parents pay, exactly that |
| Births.NewbornsExactly | engine/src/simulation.cpp:84-130 | after the phase the agents are those before it and behind them one newborn for each such parent, in order, with the next ids, configured hydration and half of the energy |
| Births.EventsOfTheTick | engine/src/simulation.cpp:188-197 | a tick appends to the log exactly one birth for each agent that is fertile after its steps, in order and with the next ids, and then one death with its cause for each that did not survive them |
| Engine.Simulation.ReapDead | engine/src/simulation.cpp:174-186 | the dead are logged with their cause and removed, the others keep their order |
| Births.DeathsExactly | engine/src/simulation.cpp:174-186 | exactly the dead are logged, in order, as dehydrated when no water is left and as starved otherwise |
| Engine.Simulation.Tick | engine/src/simulation.cpp:188-197 | one tick of the classes is one tick of the model, and the caches are those of the agents before it |
| Engine.Simulation.Run | engine/src/simulation.cpp:199-204 | n ticks of the classes are n ticks of the model |
| Engine.Simulate | engine/src/main.cpp:67-89 | from any configuration and draws: the ticks start from a first world with 0/1 cells and ids in order, keep both, and the log replayed from its agents leads to the last ones; and without initial food and regrowth, nobody is left after as many ticks as agents start with energy, which engine/tests/test_simulation.cpp:113-129 expects |
| LifeProperties.MoveOnBarrenLand | engine/src/simulation.cpp:27-69 | where there is no food and no cell has more minerals than its surcharge, a move never gains energy and leaves such land |
| LifeProperties.StepLosesExactly | engine/src/simulation.cpp:21-82 | these are exactly the lands on which, wherever it stands and whatever is drawn, a step costs every live agent at least one energy |
| LifeProperties.BarrenTick | engine/src/simulation.cpp:188-197 | a tick on such land that does not regrow costs every live agent at least one energy, and leaves newborn ones with no more than that |
| LifeProperties.Extinction | engine/src/simulation.cpp:188-204 | on such land without regrowth, live agents of energy at most M hold at most M - t after t ticks and nobody is left after M (and one), for every outcome of the draws |
| Scarcity.StepCosts | engine/src/simulation.cpp:21-82 | a step costs a live agent with energy at least one unit of what it and the land have together, and never makes any |
| Scarcity.TickCosts | engine/src/simulation.cpp:188-197 | without regrowth a tick takes at least one unit of wealth per agent that is alive with energy, births and deaths included |
| Scarcity.WealthRunsOut | engine/src/simulation.cpp:188-204 | without regrowth, whatever food and minerals lie around: the populations of all ticks together never exceed the initial wealth, and after more ticks than that nobody is left |
| Loner.LonerLives | engine/src/simulation.cpp:21-82 | a frugal agent alone on one plain cell, which charges nothing for entering, is there after t ticks if and only if t is less than its energy and the minerals of the cell together |
| LifeProperties.TickThrives | engine/src/simulation.cpp:71-81 | after every tick each agent is alive, inside the grid, with energy, and with water if agents are born with some |
| LifeProperties.TicksKeepBits | engine/src/simulation.cpp:132-172 | ticks keep food, water and mineral cells 0 or 1 |
| LifeProperties.MovesLedger | engine/src/simulation.cpp:27-69 | the moves of a step change energy by forage times the food removed plus the minerals removed minus the terrain surcharges, and hydration by forage times the water removed |
| LifeProperties.StepPhaseLedger | engine/src/simulation.cpp:21-82 | the step phase changes the total energy by exactly the sum of those gains less the metabolisms |
| LifeProperties.ReproductionPreservesEnergy | engine/src/simulation.cpp:84-130 | reproduction preserves the total energy exactly |
| LifeProperties.OneBirthSharesEnergy | engine/src/simulation.cpp:104-123 | parent and child share the parent's energy, each getting at least 25; the parent was alive, and the child is one generation on |
| Lineage.BirthsHaveParents | engine/src/simulation.cpp:94-123 | every birth has a living parent among the agents, one generation up |
| Lineage.TickHistory | engine/src/simulation.cpp:84-197 | the events of a tick, replayed by the registry automaton, are all accepted and give the agents after it |
| Lineage.RunHistory | engine/src/simulation.cpp:84-204 | so are those of any number of ticks; ids stay strictly increasing along the vector and below the next id |
| Lineage.HistoryIsOrderly | engine/src/simulation.cpp:84-197 | in an accepted log nobody dies twice or gives birth after death, ids are never reused, later births have larger ids and parents are older than children |
| Lineage.RunIsOrderly | engine/src/simulation.cpp:84-204 | every run has such a log |
| Lineage.Population | engine/src/simulation.cpp:84-197 | the population is the initial one plus the births minus the deaths of the log |
| Census.RebuiltCounts | engine/tests/test_stress.cpp:66-92 | after a rebuild each position reads the brute-force count of live agents on its cell, and all counts sum to the live population |
| Census.IndexFinds | engine/src/world.cpp:116-119 | the index map leads each id to its place and knows no other id |
| Census.IndexSurvivesTheTick | engine/src/simulation.cpp:188-197 | it stays right through stepping and births, and does not know the newborn |
| Census.ReapShifts | engine/src/simulation.cpp:183-185 | reaping moves each survivor down by the number of dead before it |
| Torus.WrapTo | engine/include/engine/grid.hpp:14-23 | wrapping yields the residue modulo the size, for negative values too |
| Torus.SameCell | engine/include/engine/grid.hpp:74-79 | two positions share a cell if and only if they are congruent in both directions |
| Torus.CellOnto | engine/include/engine/grid.hpp:74-79 | every cell number is that of one pair of coordinates |
| Torus.WrapKeepsCell | engine/src/world.cpp:64-66 | a wrapped position is inside the grid and on the same cell |
| Torus.Grid.constructor | engine/include/engine/grid.hpp:29-40 | all cells hold the fill value |
| Torus.Grid.Set | engine/include/engine/grid.hpp:56-58 | setting changes exactly the positions congruent to the given one |
| Radio.RadioGrid.Broadcast | engine/src/broadcast.cpp:8-15 | afterwards a position reads the message if and only if it is congruent to one within the radius in both directions; all others are as before; a negative radius reaches nobody |
| Radio.RadioGrid.Reset | engine/src/broadcast.cpp:21-25 | everybody reads 0 |
| Radio.WideBroadcastCovers | engine/src/broadcast.cpp:8-15 | a radius r with 2 r + 1 at least both dimensions reaches every position |
| Radio.NarrowBroadcastMisses | engine/src/broadcast.cpp:8-15 | a narrower one misses the position just outside its square |
| Base64.Base64Encode | engine/src/snapshot_json.cpp:46-78 | the loop computes the encoding |
| Base64.Base64Decode | engine/src/snapshot_json.cpp:80-116 | the loop computes the decoding or reports an invalid character |
| Base64.DecodeInvertsEncode | engine/src/snapshot_json.cpp:46-116 | decoding inverts encoding for every byte string and length (section 4 of RFC 4648) |
| Base64.EncodedShape | engine/src/snapshot_json.cpp:46-78 | the encoding has four characters per group of three bytes begun, and padding only for bytes that are not there |
| Base64.CharIs | engine/src/snapshot_json.cpp:21-25 | value v is written as the v-th character of table 1 of RFC 4648 |
| Base64.IndexIs | engine/src/snapshot_json.cpp:27-44 | a character has a value if and only if it is in that alphabet, and it is its place |
| Base64.EncodesExactly | engine/src/snapshot_json.cpp:46-78 | each of the four characters of each group in terms of its three bytes, those that are missing read as 0 and padded |
| Base64.DecodeFailsExactly | engine/src/snapshot_json.cpp:80-116 | decoding fails if and only if a group that is reached lacks one of its first two characters |
| BitFields.PackBits | engine/src/snapshot_json.cpp:119-128 | OR-ing bits in place sets bit i, most significant first, exactly for the non-zero cells, and no other |
| BitFields.PackedUnique | engine/src/snapshot_json.cpp:119-128 | that determines the bytes |
| BitFields.UnpackBits | engine/src/snapshot_json.cpp:131-141 | the masks read the field back, and 0 beyond its end |
| BitFields.FrontendUnpackBits | frontend/src/lib/canvas/decode.ts:14-24 | the frontend's shifts read the same cells |
| BitFields.UnpackInvertsPack | engine/src/snapshot_json.cpp:119-141 | unpacking inverts packing if and only if all cells are 0 or 1 |
| BitFields.GridTextReadBack | engine/src/snapshot_json.cpp:233-257 | a 0/1 grid of any size survives packing, base64 and back |
| Hex.GenomeToHex | engine/src/snapshot_json.cpp:143-149 | two lower-case digits a byte |
| Hex.HexToGenome | engine/src/snapshot_json.cpp:151-159 | pairs of characters as the C++ number parser reads them, missing ones as 0, or its exception |
| Hex.ReadInvertsText | engine/src/snapshot_json.cpp:143-159 | reading the text of a genome gives the genome |
| Hex.HexDigits | engine/src/snapshot_json.cpp:143-149 | the two characters of each byte, the high digit first, in lower case |
| Hex.EitherCase | engine/src/snapshot_json.cpp:151-159 | digits are read in either case |
| Hex.OddPairs | engine/src/snapshot_json.cpp:151-159 | behind a blank or a plus sign, or before what is no digit, a digit counts alone; behind a minus sign negated modulo 256; without any the reading fails |
| Snapshots.CaptureSnapshot | engine/src/snapshot_json.cpp:166-203 | the capture holds format version, tick, size and seed, every field that it keeps of every agent, and all grids, exactly |
| Snapshots.SnapshotShows | engine/src/snapshot_json.cpp:166-203 | every agent is shown with its own id, position, energy, hydration, genome and generation, and its parent or 2^64 - 1; every terrain cell by its number 0 to 3 |
| Snapshots.Write | engine/src/snapshot_json.cpp:217-237 | every number and name is written as it is, genomes in hexadecimal, grids packed and terrain raw in base64 |
| Snapshots.FieldsReadBack | engine/src/snapshot_json.cpp:209-292 | the fields always read back, and give the same snapshot if and only if all cells are 0 or 1 |
| Snapshots.ReachableWorldsReadBack | engine/src/simulation.cpp:188-197 | so snapshots lose nothing that they hold of any world that any number of ticks reaches from one with 0/1 cells |

## Left out

- Source positions: tokens, syntax trees and errors carry no line and column, so error messages are reduced to their kind.
- RecursiveDescent.Parser.Level: the six methods for the binary precedence levels are one method with the level as parameter, because they differ in their operators only.
- Brain.BytecodeBrain.Tick: its precondition excludes an index map entry of the agent beyond the end of the agent vector, as a reap without a rebuild can leave one; the C++ reads through it unchecked.
- Deployed.TickBrain: the same precondition on the agent's own entry.
- What the engine does after pushing past its stack array or dividing the least integer by -1: the model's run ends there, in StackOverrun or QuotientOverflow.
- Handlers of VirtualMachine.Vm are functions from a world to a world and the values pushed; Brain.BytecodeBrain runs the same machine with the handler class on a World. A handler's status is always Ok, as all handlers of the engine report.
- Snapshots: the direction and the memory of an agent are not in the source's snapshots; the seed is a number of the configuration that nothing else depends on.
- Programs outside the fragment: perception sugar other than the terrain forms, actions used as values and calls of functions that fall off their end have no source semantics here; Perception and Safety cover their bytes.
- Sizes near the limits of the C++ integer types: energies, ids, tick counts and vector lengths are unbounded, and `.gob` offsets do not wrap.
- Random numbers: the engine's generator and its distributions; every draw may be anything in its range.
- Floating point: spawn and mutation rates are real numbers, so rounding of products is not modelled.
- Engine.World.constructor: non-positive dimensions, for which the C++ constructor throws, are a precondition.
- Engine.Simulation.ReproduceAgents: the log is always kept; the engine's optional log changes nothing else.
- Agents' memory banks, learning brains, day and night, statistics: the tick that is modelled does not depend on them.
- JSON and TOML libraries, files, IPC, the HTTP and WebSocket services, accounts, tournaments, rendering and the block editor.
- Non-ASCII letters and digits in source text, and Python's recursion limit.

# A verified model of the n65 toolchain's core algorithms

n65 is a C-like compiler, an assembler and a linker for the 6502. This project models the parts of it where an
algorithm has to get somewhere that can be said in a few words, and proves that it does. The C code that changes
state becomes classes and methods with loops; each is proved against a specification function or a definition that
knows nothing of the algorithm. `Basics` holds what all of it shares.

- **Call graph** (`Reachability`, `TarjanState`, `Tarjan`, `CallGraph`). The compiler interns functions and call
  edges, runs recursive Tarjan over arrays, and rejects a program in which a function with symbol-backed parameters
  can re-enter itself. Components are proved to be exactly the classes of mutual reachability by paths, and a
  program to be rejected exactly when such a function has a chain of calls back to itself.
- **Peephole optimizer** (`Peephole`, `PeepholeMachine`, `PeepholeSimulation`, `PeepholeExact`, `PeepholeLimits`). Sweeps that drop
  jumps to the next line and loads of a value already held. A small 6502 semantics with uninterpreted subroutines,
  a stuttering simulation in both directions, its extension to any number of sweeps, and a program for each
  condition showing that it cannot be left out. What is dropped is also said line by line, so that it is known what
  remains.
- **Assembler** (`AsmOpcode`, `AsmExpr`, `AsmConstants`, `AsmLayout`, `AsmStable`, `AsmRelax`, `Assembler`, `AsmEmit`,
  `AsmImage`, `AsmLimits`, `AsmShape`, `AsmAccept`, `SecondPass`, `Assembly`, `BranchCode`, `InstructionCode`). Layout passes, resolution of constants, shrinking of branches and
  operands until nothing changes, and the second pass. Shrinking is monotone, decisions made under an old layout
  stay valid under every later one, every order of shrinking ends in the same encodings, the second pass writes
  what the first reserved, segments are tiled, the image holds each statement's bytes at its address, and a branch
  in that image goes to its label, in either encoding. `Assembly.Assemble` is all of it in one method, for a stable exit
  and for the one through the cap of fifty rounds. `AsmLimits` has a family of programs that run into that cap, and a
  program outside the conditions whose result depends on the order of shrinking. `AsmShape` ties encodings to operands as
  written, `AsmAccept` says which programs a pass accepts, and `InstructionCode` what the processor finds in memory.
- **Lowering of control flow** (`LowerMachine`, `LowerCondition`, `LowerSlot`, `LowerStatement`, `LowerContext`,
  `LowerDispatch`, `LowerSimulation`, `LowerLaws`, `LowerEntry`, `LowerLabels`, `LowerLeak`, `LowerFunction`, `LowerEmitter`). Conditions, if, while, for,
  do, switch, named and plain break and continue, and return, lowered to labels and jumps. Leaf expressions are
  opaque: evaluating one appends its identity to a trace, and its value may depend on everything evaluated before.
  The code of a whole function ends exactly when the source does, with the same trace. The meaning itself obeys the laws
  of `LowerLaws`: a for is a while, a do-while is a while after its first round. The compiler itself, with its
  label counter, its two stacks of 128 frames and its `locals`, is a class proved to append exactly that code.
- **Output files** (`IntelHex`, `O65Packing`, `O65Lookup`, `O65Reloc`, `O65Table`). The hex text reads back as the bytes
  in use; segments tile their output segments; the linker's search for the segment of a value finds the one it lies in;
  accepted relocatable expressions are affine, and a linked operand is right if and only if that search leads to a
  segment that moves as far as the symbol's; the relocation table reads back as written.
- **Layout, overloads, constants** (`AggregateLayout`, `BitfieldAccess`, `OverloadCost`, `Overload`, `OverloadRank`,
  `OverloadRegistry`, `TwosComplement`, `ConstantFold`). Three loops that place struct members, the loads and stores
  of bit-fields down to `ror` and its carry, the choice of the cheapest overload and the tables it is chosen from,
  and casts and shifts of constants.

`dafny verify dfyconfig.toml` checks everything.

Where the code and its documentation or the reader's expectation part, the code is modelled as it is:

- A `continue`, a `return`, and a named break or continue that leaves a switch jumps past the code that pops the
  switch's temporaries, so the stack grows. The semantics has a `leak` for it. `LowerLeak.Contained` is the test on the
  source: no jump leaves a non-empty switch but by breaking out of that switch. A contained body restores the stack in
  every run, and any run leaks if and only if it executes a jump that is not contained where it stands, however deep in
  ifs, blocks, loops and other switches (`LowerLeak.LeaksIffEscapes`).
- A literal is false in a condition only when spelled `0`; `LowerCondition.LiteralNeedsSpelling`.
- An unknown name in a break or continue is only warned about and the statement does nothing. Of several default
  sections the last one counts. A switch without sections does not evaluate its value.
- Shrinking reads `*` as the address of the instruction, the second pass as the address after the opcode. An operand
  `* + k` that was shrunk is refused exactly at address 255 - k; `AsmEmit.StarIsReadTwice`, and
  `AsmEmit.ShrunkRefusedIff` for any operand.
- A `.res` amount that subtracts a distance between labels grows when encodings shrink
  (`AsmRelax.OppositeAmountGrows`), so shrinking is monotone only without such amounts. With them two orders of shrinking
  can end stable in different encodings, and whole sweeps in a third with a branch out of reach that is refused;
  `AsmLimits.OrderMatters`.
- Shrinking is cut off after fifty rounds without an error. If the last round still shrank a statement, that statement
  is written short where it was placed long, and the bytes between are in no image: `AsmLimits.CutOffLeavesHole`, for
  every chain of 51 to 250 branches each of which spans the next.
- A dropped load no longer sets N and Z, `dex` and other writers are not known to change a register, and a store to
  a zero-page name is not known to change what a register was loaded from; the three lemmas of `PeepholeLimits`.
- The linker looks up the segment of a relocated value by the value, constant offset included. An operand that points
  out of its symbol's segment moves with the segment it points into (`O65Reloc.TakenWith`), and the linker stops where
  there is none (`O65Lookup.StopsIff`).
- The shift of a loaded bit-field counts down to a signed byte and, from 130 bytes on, shifts only the last byte;
  `BitfieldAccess.StuckIsWrong`.
- The member lookup passes over unnamed fields without counting their bits, the type fingerprint counts them;
  `AggregateLayout.CopiesAgreeIff` says when that shows.
- The object writer adds segment sizes in 32 bits, so that a size within 64 KiB of 4 GiB, or beyond, can pass its check;
  `O65Packing.PassesIffFits`.
- A bit-field that runs past its declared type is stored whole but loaded without its last bits;
  `BitfieldAccess.OnesReadBackIffFits`.
- Costs of arguments are added up, and passing a value as it is costs 1, so with thirteen such arguments a function that
  converts one may be cheaper than one that takes all as they are; `OverloadRank.TwelveAtMost`.
- A negative constant cast to an unsigned type of 8 bytes or more stays negative; `ConstantFold.CastIsOfType`.

## Model

| member | source | states |
|---|---|---|
| CallGraph.Graph.NodeIndexForFunction | compiler/compile_function.c:435-460 | interning: the same function always has the same index, a new one is appended, one without a symbol has none, and the call relation is untouched |
| CallGraph.Graph.RecordEdge | compiler/compile_function.c:485-506 | the call relation gains exactly this pair of functions, once |
| Tarjan.Finder.Visit | compiler/compile_function.c:509-547 | the recursive search keeps the whole invariant of Tarjan's algorithm, terminates on the number of unvisited nodes, and leaves its node either on the stack with a low-link some stacked node accounts for, or closed |
| Tarjan.Finder.FindComponents | compiler/compile_function.c:550-590 | afterwards every node has a component, two nodes share one exactly when each reaches the other, edges lead to no higher component, and the array bounds are never exceeded |
| TarjanState.NothingPending | compiler/compile_function.c:584-590 | the invariant with no active call and no unvisited node is that statement about components |
| TarjanState.CycleTest | compiler/compile_function.c:592-605 | a component of several nodes, or an edge inside one, is there exactly when the node lies on a cycle |
| CallGraph.CycleIsReentry | compiler/compile_function.c:485-506 | cycles of node numbers are exactly chains of calls from a function back to itself |
| CallGraph.Graph.FindOffender | compiler/compile_function.c:550-619 | a reported node is a static-parameter function on a cycle, and none is reported only if there is none |
| CallGraph.Graph.Analyze | compiler/compile_function.c:550-629 | the program is rejected if and only if some function with symbol-backed parameters has a non-empty chain of recorded calls back to itself, and the one reported is such a function |
| Peephole.Buffer.NextKeptNonblank | compiler/emit.c:251-260 | the first kept line after this one that is not blank, or -1 |
| Peephole.Buffer.Classify | compiler/emit.c:320-370 | a line is dropped as a jump to the label after it, or else as a load of what the register is known to hold |
| Peephole.Buffer.RunPass | compiler/emit.c:290-410 | the in-place pass computes the sweep function on keep marks, says whether anything changed, and its counters are those of the lines dropped |
| Peephole.Buffer.Optimize | compiler/emit.c:451-510 | at most 20 sweeps; if fewer, another would change nothing; the bytes saved are the difference in size |
| Peephole.SweepShrinks | compiler/emit.c:451-510 | a sweep that changes something leaves strictly fewer lines |
| PeepholeExact.DroppedIff | compiler/emit.c:290-410 | a kept line is dropped if and only if it is a jmp, beq or bne to the label that is the next kept line but for blanks, or a load of a safe operand that an earlier kept line loads into the same register with no line between at which the register is forgotten; said without the pass's own tracking |
| PeepholeExact.SweptIsTight | compiler/emit.c:451-510 | once another sweep would change nothing, no jump to the next label is left, and between any two loads of one safe operand into one register stands a line at which the register is forgotten |
| PeepholeExact.SafeLoads | compiler/emit.c:51-76 | the safe operands are the immediates, the two arguments, and both bytes of each of the compiler's pointers |
| PeepholeExact.SizeIsEncodings | compiler/emit.c:79-108 | the bytes counted for a line are those of the encoding it has in the assembler, names of unknown address being absolute |
| PeepholeSimulation.ForwardRun | compiler/emit.c:290-410 | whatever the swept program's original does in n steps it does in at most n, registers, carry, stack and memory equal at every shared step |
| PeepholeSimulation.BackwardRun | compiler/emit.c:290-410 | whatever the swept program does its original does |
| PeepholeSimulation.SweepMeansSame | compiler/emit.c:290-410 | one sweep keeps the meaning from the first line and from every label |
| PeepholeSimulation.RepeatsUnobservedIff | compiler/emit.c:290-410 | the loads that sweeps drop are exactly those of what a register has held since an earlier line, read off the lines in order; so whether a branch observes the flags of a dropped load is told before anything is dropped |
| PeepholeSimulation.OptimizedMeansSame | compiler/emit.c:451-510 | any number of sweeps keeps the meaning of programs of the handled mnemonics in which no branch reads the flags of such a load and no store stands between a load of X or Y from a zero-page name and its repeat |
| PeepholeLimits.UnknownWriter | compiler/emit.c:372-405 | with a register writer the pass does not know, the meaning changes |
| PeepholeLimits.StoredOperand | compiler/emit.c:372-405 | with X loaded from a zero-page name that is then stored to, the meaning changes |
| PeepholeLimits.ObservedFlags | compiler/emit.c:330-370 | with a branch on the flags of a dropped load, the meaning changes |
| AsmExpr.EvalMonotone | assembler/expr.c:289-377 | defining more names never changes the value of an expression that has one |
| AsmExpr.EvalDefined | assembler/expr.c:289-377 | an expression is unresolved only for want of a name it mentions |
| AsmExpr.UnaryMeans | assembler/expr.c:289-377 | - is the opposite number, < the byte congruent to the operand, > the byte above it |
| AsmExpr.BinaryMeans | assembler/expr.c:289-377 | sum, difference and product; a quotient is rounded towards zero, with a remainder of the dividend's sign, and none by zero |
| AsmConstants.SweepsConsistent | assembler/asm_pass.c:607-655 | however many sweeps are made, a value once given never changes and equals its expression's value |
| AsmConstants.SweepsReachDepth | assembler/asm_pass.c:607-655 | k sweeps find every constant of dependency depth k, in any source order |
| AsmConstants.StableIsDepth | assembler/asm_pass.c:607-655 | a sweep that changes nothing has found exactly the constants that have a value at some depth |
| AsmConstants.FinishedIsDepth | assembler/asm_pass.c:607-655 | in the end every constant of depth at most 64 has its value, and no constant any other |
| AsmConstants.FinishedCycle | assembler/asm_pass.c:607-655 | constants on a dependency circle have no value and are reported |
| AsmConstants.Resolve | assembler/asm_pass.c:607-655 | the loop stops after at most 64 sweeps, early only when nothing changes, and reports exactly the constants that are stuck |
| Assembler.Context.DeclareSymbol | assembler/asm_state.c:685-709 | a first declaration defines the name, a second is an error and changes nothing |
| Assembler.Context.Pass1 | assembler/asm_pass.c:658-853 | the pass over mutable segments and symbols computes the layout function: every address, every symbol, every segment's size, every error counted |
| AsmAccept.CleanIff | assembler/asm_pass.c:658-853 | a pass reports no error if and only if every name is declared once, every .res has a known amount not below 0, every .org a known address not below its segment, and no constant is stuck |
| AsmAccept.OrgMoves | assembler/asm_pass.c:658-853 | after such a .org its segment goes on at the address named; every other segment, and one whose .org is refused, where it was |
| AsmAccept.SizeTaken | assembler/asm_pass.c:658-853 | the bytes each kind of statement takes |
| Assembler.Context.ResolveConstants | assembler/asm_pass.c:607-655 | constants are resolved after the statements are placed |
| Assembler.Context.RelaxSweep | assembler/asm_pass.c:946-988 | one in-place sweep shrinks every statement that may shrink under the layout just made, and says whether any did |
| Assembler.Context.Relax | assembler/asm_pass.c:903-992 | a stable exit is a choice of encodings none of which may shrink, with its own layout in the fields; not reaching one takes 49 sweeps that each shrank something, and leaves the encodings of the last sweep over the layout made before it; the errors are those of operands without an encoding and of every pass made |
| AsmShape.StartsInShape | assembler/asm_pass.c:243-350 | without a specifier an instruction starts in an encoding of the shape its operand is written in: an address in three bytes if and only if that is registered, else in two, a branch by name in its long form; there is none only for an address registered in neither, or of a raw opcode |
| AsmShape.StartsAsSpecified | assembler/asm_pass.c:122-262 | a specifier gives its own encoding, to operands of that encoding's shape, those for indirection also to a plain address, and to no others |
| AsmShape.NormalizeOnly | assembler/asm_pass.c:95-119 | an operand's written shape is changed only for branches, by name or raw, and for shifts without operand |
| AsmShape.IllegalIff | assembler/asm_pass.c:581-596 | exactly those instructions are reported that have no encoding to start with |
| AsmShape.BatchKeepsShape | assembler/asm_pass.c:903-992 | whatever number of sweeps is made, every statement keeps the shape of its operand, and its encoding if it has a specifier |
| AsmShape.ShrinksIff | assembler/asm_pass.c:946-988 | a statement shrinks if and only if it is a long branch whose target is in reach of the short one, or an address of three bytes without a specifier that lies in page zero and is registered in two; then to two bytes of the same shape |
| AsmShape.StableMeans | assembler/asm_pass.c:903-992 | encodings are stable if and only if they come from the first ones by shrinking and no statement may shrink under their own layout |
| Assembler.ShortProgramsSettle | assembler/asm_pass.c:903-992 | with at most 48 statements the fifty rounds suffice |
| AsmLayout.PlacedAddress | assembler/asm_pass.c:658-853 | without .org a statement's address is its segment's base plus what the pass reserves for the statements before it in the segment |
| AsmLayout.CleanIsRegular | assembler/asm_state.c:685-709 | a pass over a program without .org that reports no error has met every name once |
| AsmLayout.AddressesNatural | assembler/asm_pass.c:658-853 | no address is negative |
| AsmStable.LabelValue | assembler/asm_pass.c:658-853 | where names are declared once and there is no .org, a label stands for its segment's base plus the bytes reserved there before it, whatever constants depend on it |
| AsmStable.AmountStays | assembler/asm_pass.c:658-853 | the amount a .res reserved, of whatever form, is its expression's value under the finished table, though more names are known then |
| AsmStable.OthersAgree | assembler/asm_pass.c:607-655 | the value of a name that does not depend on labels, directly or through constants, does not depend on the encodings chosen |
| AsmRelax.ReservedShrinks | assembler/asm_pass.c:658-853 | no statement takes more bytes when encodings shrink, where .res amounts add up distances from labels to later ones and parts free of labels, and subtract only the latter |
| AsmRelax.OppositeAmountGrows | assembler/asm_pass.c:658-853 | an amount that subtracts such a distance grows by what the distance loses |
| AsmRelax.BranchStaysInReach | assembler/asm_pass.c:224-240 | a branch within -128..127 of a label of its segment stays within when anything shrinks |
| AsmRelax.OperandStaysInPageZero | assembler/asm_pass.c:963-977 | an operand within 0..255 that is free of labels, or a sum of labels and non-negative numbers, stays within when anything shrinks |
| AsmRelax.RelaxedMonotone | assembler/asm_pass.c:224-240 | what may shrink under a layout may shrink, in the same way, under every later one |
| AsmRelax.RunDescends | assembler/asm_pass.c:946-988 | in every run, with sweeps or single steps and current or stale layouts, encodings only move to their narrow form, once |
| AsmRelax.StaleDecisionsHold | assembler/asm_pass.c:946-988 | every decision made under a stale layout holds under every later layout |
| AsmRelax.StableEndIsLargest | assembler/asm_pass.c:903-992 | every run that ends stable ends in the same encodings, the widest choice under which nothing may shrink |
| AsmLimits.OrderMatters | assembler/asm_pass.c:946-988 | with an amount that subtracts a distance all this fails: a program whose operands are plain, two orders that end stable in different encodings, and whole sweeps that end in a third, which the second pass refuses |
| AsmLimits.CutOffLeavesHole | assembler/asm_pass.c:912-992 | with 51 to 250 branches that each span the next, fifty rounds end with nothing stable and no error, and a byte missing between the short form written and the next statement |
| Assembler.BatchIsLargest | assembler/asm_pass.c:903-992 | that is also what the assembler's whole sweeps end in |
| AsmEmit.WritesWhatWasReserved | assembler/asm_pass.c:1018-1337 | after a pass without errors, a statement of any kind written without an error has exactly the bytes that pass reserved |
| AsmEmit.SegmentIsTiled | assembler/asm_pass.c:658-853 | each byte a segment uses belongs to exactly one of its statements |
| AsmEmit.ShrunkStatementsFit | assembler/asm_pass.c:1271-1307 | the range errors of the second pass cannot hit a statement that was shrunk |
| AsmEmit.ShrunkRefusedIff | assembler/asm_pass.c:1271-1307 | a shrunk statement is refused exactly when its operand, evaluated after the opcode, has no value in 0..255; a shrunk branch never, for want of an opcode apart |
| AsmEmit.StarIsReadTwice | assembler/asm_pass.c:963-977 | an operand `* + k` is shrunk exactly when at + k is in page zero, and then refused exactly when at + k is 255 |
| SecondPass.Emitter.EmitOperand | assembler/asm_pass.c:1271-1337 | the operand bytes of every mode, or one error and nothing more |
| SecondPass.Emitter.EmitInsn | assembler/asm_pass.c:1188-1337 | an instruction's bytes, up to its first error, written from its address |
| SecondPass.Emitter.EmitData | assembler/asm_pass.c:1020-1182 | data bytes up to the first failing expression |
| SecondPass.Emitter.Pass2 | assembler/asm_pass.c:1466-1498 | the image is the one the statements' bytes overlay, and every failing statement is counted |
| AsmEmit.WritesLessIfShrunk | assembler/asm_pass.c:1018-1337 | if it shrank after that pass it has fewer, and only then |
| AsmImage.ImageIsFaithful | assembler/asm_pass.c:1466-1498 | without errors in either pass, a byte is in the image exactly when it is one of a statement's bytes, counted from where that statement was placed, even if statements shrank since; and it is that byte |
| Assembly.Assemble | assembler/main.c:608-614 | relaxing and writing together: the encodings are stable, or those after fifty sweeps that did not settle; the number of errors is exactly that of all passes made; none reported means that the image holds each statement's bytes where it was last placed, and nothing else; and there are no holes between them if and only if nothing shrank since |
| Assembly.NoErrorsIff | assembler/main.c:608-614 | that number is 0 if and only if every instruction has an encoding to start with, no layout pass finds fault, and every statement is accepted and inside the image |
| BranchCode.InverseMeansOpposite | assembler/opcode.c:413-424 | the inverted opcode branches exactly when the mnemonic's condition fails |
| BranchCode.BranchGoesRight | assembler/asm_pass.c:1188-1337 | the 2-byte and the 5-byte form both go to the operand's value when the condition holds and to the byte after them otherwise |
| BranchCode.BranchReachesLabel | assembler/asm_pass.c:1188-1337 | running the branch in the finished image reaches the label, or the next statement |
| InstructionCode.OperandIsWorth | assembler/asm_pass.c:1271-1337 | an operand is written if and only if there is room for its value, and then is worth it to the processor: as a displacement, or modulo what one or two bytes hold, low byte first |
| InstructionCode.InsnIsAccepted | assembler/asm_pass.c:1188-1337 | an instruction is accepted if and only if its opcode is registered and its operand is there, has a value and fits |
| InstructionCode.StatementAccepted | assembler/asm_pass.c:1018-1337 | and so for every kind of statement: data if and only if each value exists and fits, .res if and only if its amount is known and not below 0 |
| InstructionCode.InstructionInMemory | assembler/asm_pass.c:1018-1337 | after an assembly without errors the processor finds at an instruction's address the opcode of its encoding, then an operand worth its expression's value |
| InstructionCode.InstructionReadsLabel | assembler/asm_pass.c:1018-1337 | an operand that is a label reads as the address at which the label's statement stands |
| InstructionCode.DataInMemory | assembler/asm_pass.c:1018-1337 | and the values of .byte and .word, texts and reserved zeros stand at theirs |
| InstructionCode.Disassembles | assembler/asm_pass.c:1188-1270 | where no byte is the opcode of two instructions, the byte there tells mnemonic and encoding |
| IntelHex.Image.WriteByte | assembler/ihex.c:25-45 | an address in 0..65535 is written, any other refused, and min and max keep enclosing the used ones |
| IntelHex.FileBack | assembler/ihex.c:62-121 | a reader of the format, checking every checksum, gets back any records from their printed text |
| IntelHex.Image.Dump | assembler/ihex.c:85-121 | reading the dump yields exactly the used addresses with their bytes, ascending, each once; a record has 16 bytes, or fewer where an unused address or the end follows |
| LowerEmitter.Compiler.ConditionBranchFalse | compiler/compile_expr_flow.c:180-465 | appends exactly the condition's code, uses up its labels, restores `locals` |
| LowerCondition.CondRuns | compiler/compile_expr_flow.c:121-465 | the code falls through if and only if the tree is true and jumps to the false label if and only if it is false, evaluates exactly the leaves short-circuiting demands from left to right, and leaves the stack as high as before at both exits |
| LowerCondition.LiteralNeedsSpelling | compiler/compile_expr_flow.c:236-241 | a literal decides what it means if and only if a zero is spelled canonically |
| LowerEmitter.Compiler.ConditionToSlot | compiler/compile_expr_ops.c:613-642 | appends exactly the slot form's code |
| LowerSlot.SlotRuns | compiler/compile_expr_ops.c:674-792 | the slot form leaves 1 or 0 according to the tree, evaluates what the tree evaluates, and touches nothing else on the stack |
| LowerDispatch.DispatchRuns | compiler/compile_stmt.c:889-1034 | the chain of tests ends at the label of the first section that matches, or falls through, evaluating case expressions only up to there |
| LowerFunction.PickIsFirst | compiler/compile_stmt.c:889-1034 | with constant labels that section is the first in source order that equals the value or whose range, in either order of its bounds, contains it |
| LowerFunction.DecodeEncode | compiler/compile_stmt.c:889-1034 | a constant its type holds is the number its bytes stand for, signed or not, in either byte order |
| LowerFunction.EncodedByte | compiler/compile_stmt.c:889-1034 | byte by byte: counted from the low end, the i-th byte is the constant divided by 256^i, rounded down, modulo 256 |
| LowerSimulation.IfRuns | compiler/compile_stmt.c:210-235 | if, with and without else |
| LowerSimulation.LoopRuns | compiler/compile_stmt.c:238-345 | while, for and do, with break and continue to this or any outer loop |
| LowerSimulation.SwitchRuns | compiler/compile_stmt.c:794-1079 | switch: one section chosen, fall-through, break through the clean-up, jumps further out past it |
| LowerEntry.DefaultIsLast | compiler/compile_stmt.c:884-886 | the default that counts is the last section that is one, and there is none only if no section is |
| LowerEntry.SwitchMeans | compiler/compile_stmt.c:874-1038 | with constant labels a switch goes on at the first section whose label lists its value, or else at the last default, or else nowhere; the value alone is evaluated before |
| LowerEntry.EntryIsUnique | compiler/compile_stmt.c:874-1038 | and that is one section at most |
| LowerEntry.SwitchEnters | compiler/compile_stmt.c:874-1038 | the code leads to that section's label with its body's code after it, or to the clean-up if there is none |
| LowerSimulation.StmtRuns | compiler/compile_stmt.c:133-207 | any statement's code leads to where its outcome sends control, with its trace, or runs on as long as the statement does |
| LowerLaws.ForIsWhile | compiler/compile_stmt.c:281-345 | a for means its first part, then a while with the step at the end of its body, if the body never continues the loop |
| LowerLaws.UncontinuingNever | compiler/compile_stmt.c:373-390 | which can be read off the body: no continue by name and none outside loops of its own |
| LowerLaws.ContinueSkips | compiler/compile_stmt.c:373-390 | what stands after a continue, plain or by the loop's name, might as well not be there, in any loop |
| LowerLaws.BreakStops | compiler/compile_stmt.c:353-370 | a loop whose body comes to a break, plain or by the loop's name, is over |
| LowerLaws.DoIsWhile | compiler/compile_stmt.c:684-718 | after its first round a do-while is a while |
| LowerLaws.NegationInward | compiler/compile_expr_flow.c:180-465 | moving a negation inwards, and with or exchanged and comparisons turned into their opposites, changes neither a condition's value nor what it evaluates |
| LowerLaws.Trichotomy | compiler/compile_expr_flow.c:180-465 | a comparison evaluates left, then right, and exactly one of <, == and > holds of their values |
| LowerLabels.StmtOwn | compiler/compile_expr.c:107-111 | a statement's code marks each of its own labels once and no other |
| LowerFunction.LabelTextsDiffer | compiler/compile_expr.c:107-111 | labels made with different counters are different texts, whatever their prefixes |
| LowerFunction.FunctionRuns | compiler/compile_stmt.c:1121-1177 | a body that finishes brings the machine to the end of its code with the same trace; one still running keeps it inside |
| LowerFunction.EndsOnlyIfFinished | compiler/compile_stmt.c:1121-1177 | and the machine gets there only if the body finishes |
| LowerLeak.ContainedIsTidy | compiler/compile_stmt.c:1060-1070 | a statement in which no jump leaves a non-empty switch but by breaking out of it leaks nothing, whatever its expressions are worth |
| LowerLeak.SwitchLeaks | compiler/compile_stmt.c:1060-1070 | a switch leaks its temporaries exactly when a jump carries control out of it in any other way |
| LowerLeak.LeaksIffEscapes | compiler/compile_stmt.c:1060-1070 | where the values switched on have at least one byte, a run of any statement leaks, or leaves the switch around it otherwise than by breaking out of it, if and only if it executes a jump that is not contained where it stands |
| LowerFunction.RestoredIfContained | compiler/compile_stmt.c:1066-1070 | the code of a contained body restores the stack in every run |
| LowerFunction.RestoredWithoutLeak | compiler/compile_stmt.c:1066-1070 | in any run the stack is restored if and only if nothing leaked, that is if no jump was executed that is not contained where it stands |
| LowerEmitter.Compiler.PushLabels | compiler/compile_stmt.c:133-171 | each stack takes the frame, plain or named, below its capacity of 128 and stays as it is when full |
| LowerEmitter.Compiler.LookupNamed | compiler/compile_stmt.c:184-207 | the innermost frame of that name |
| LowerEmitter.Compiler.BreakStatement | compiler/compile_stmt.c:353-370 | refused exactly outside loops and switches; otherwise exactly the jump |
| LowerEmitter.Compiler.ContinueStatement | compiler/compile_stmt.c:373-390 | refused exactly outside loops; otherwise exactly the jump |
| LowerEmitter.Compiler.IfStatement | compiler/compile_stmt.c:210-235 | appends exactly the statement's code and restores the stacks of labels |
| LowerEmitter.Compiler.WhileStatement | compiler/compile_stmt.c:238-278 | the same for while |
| LowerEmitter.Compiler.ForStatement | compiler/compile_stmt.c:281-345 | the same for for |
| LowerEmitter.Compiler.DoStatement | compiler/compile_stmt.c:684-718 | the same for do |
| LowerEmitter.Compiler.SwitchStatement | compiler/compile_stmt.c:794-1079 | the same for switch, and `locals` is restored on every path |
| LowerEmitter.Compiler.ReturnStatement | compiler/compile_stmt.c:1082-1099 | exactly the jump to the end of the function |
| LowerEmitter.Compiler.FunctionBody | compiler/compile_stmt.c:1121-1177 | a body is refused exactly when a plain break or continue stands outside every loop; otherwise exactly its code is appended |
| O65Reloc.AnalysisIsAffine | assembler/o65.c:584-720 | an accepted expression without < or > is worth its recorded value plus the motion of at most one segment or import, wherever those end up |
| O65Reloc.AcceptedIff | assembler/o65.c:584-720 | accepted is exactly an expression of known names in which nothing that moves is negated, subtracted, multiplied, divided, or added to something else that moves; it is recorded to move if and only if it mentions a name that does |
| O65Lookup.FindLayoutForValue | linker/n65ld.c:970-990 | the first segment with the value inside, or else the last one that ends there |
| O65Lookup.FindsHome | linker/n65ld.c:970-990 | of segments packed one after another, a segment is found exactly for the values inside it, and for its end unless a later one, even an empty one, starts there |
| O65Lookup.StopsIff | linker/n65ld.c:993-1009 | outside DATA the linker stops exactly at values beyond the end of the output segment |
| O65Reloc.WordLinks | linker/n65ld.c:1155-1210 | the linker's patching adds to a recorded word the motion of the segment found for it, or stops |
| O65Reloc.ByteLinks | linker/n65ld.c:1155-1210 | and moves a byte as part of the word it makes with its auxiliary byte |
| O65Reloc.WordIsRight | assembler/o65.c:728-767 | a linked word is the expression's moved value modulo 2^16 if and only if the segment found moves as far as the symbol's, modulo 2^16; no other byte is touched |
| O65Reloc.TakenWith | linker/n65ld.c:993-1009 | a value is moved with the segment it lies in, its symbol's or not |
| O65Reloc.TakenIsMotion | linker/n65ld.c:993-1009 | so the operand is right where the value lies in the symbol's segment, or at its end with no other starting there, and for imports always |
| O65Reloc.ByteIsRight | assembler/o65.c:728-767 | a linked low or high byte is the moved value's byte if and only if the two motions give the same byte |
| O65Reloc.ImportByteIsRight | assembler/o65.c:728-767 | for an import plus an offset exactly when the offset's low byte is zero, or adding it leaves the high byte |
| O65Reloc.WordOnByte | assembler/o65.c:728-767 | a word relocation on a one-byte operand looks up the word it makes with the next byte, and spares that byte exactly when the operand byte and the motion together stay below 256 |
| O65Table.WriteEntry | assembler/o65.c:1091-1111 | one entry: 255 for each full 254 of the gap, the rest of it, then the entry's fields |
| O65Table.GapBytes | assembler/o65.c:1091-1111 | the gap's bytes: 255 for each full 254 before the last step, which is 1 to 254 |
| O65Table.WriteTable | assembler/o65.c:1091-1111 | the linker's reader gets back exactly the entries written, whatever follows the table |
| O65Table.TableReadsBack | linker/n65ld_input.c:112-144 | reading what was coded is the identity, for gaps of any length, undefined indices and auxiliary bytes |
| O65Table.RelocationsReadBack | assembler/o65.c:473-495 | the same for relocation records in ascending order |
| O65Packing.Packer.RegisterLayout | assembler/o65.c:259-319 | the segment is placed after the others, or already there, or unknown; refused exactly when its 32-bit sums exceed 64 KiB, changing nothing |
| O65Packing.PassesIffFits | assembler/o65.c:279-290 | what passes that check fits if and only if the sum did not wrap |
| O65Packing.Packer.BuildLayouts | assembler/o65.c:322-342 | succeeds exactly when every segment fits in turn, and then holds the finished layout |
| O65Packing.LayoutsHoldAll | assembler/o65.c:322-342 | every segment in use and every segment with bytes is placed |
| O65Packing.UsedInOrder | assembler/o65.c:322-342 | segments stand in the order of their first use, those that merely have bytes after them |
| O65Packing.PackedTiles | assembler/o65.c:259-319 | each byte of an output segment, zero-page load images in DATA included, belongs to exactly one placed segment |
| O65Packing.RangesFit | assembler/o65.c:300-316 | every range lies inside its output segment, so no 16-bit field truncates |
| O65Packing.Buffer.EnsureCapacity | assembler/o65.c:425-445 | growing keeps the contents |
| O65Packing.Buffer.WriteByte | assembler/o65.c:448-463 | the byte is stored and a gap before it filled with zeros; offsets beyond 16 bits are refused |
| O65Packing.Buffer.WriteWord | assembler/o65.c:466-470 | low byte first, and only the low one where the high one does not fit |
| AggregateLayout.FindMember | compiler/compile_lvalue.c:31-103 | finds the first field so named, if any, and its place after the named fields before it |
| AggregateLayout.Fingerprint | compiler/abi_meta.c:370-443 | lists the place of every field after all fields before it |
| AggregateLayout.SizeOf | compiler/compile_toplevel.c:865-947 | rejects exactly the aggregates with a bit-field wider than its type; otherwise the bytes that hold all fields |
| AggregateLayout.MembersDoNotOverlap | compiler/compile_lvalue.c:31-103 | of two members of a struct the first declared ends before the other begins |
| AggregateLayout.MembersFitInside | compiler/compile_toplevel.c:865-947 | every member lies inside the struct's size |
| AggregateLayout.UnionMembersFitInside | compiler/compile_toplevel.c:865-947 | and inside the union's |
| AggregateLayout.NothingWasted | compiler/compile_toplevel.c:865-947 | a field begins where the one before it ends, or at the next byte if it is no bit-field, and the struct ends with the byte its last field ends in |
| AggregateLayout.WidestIsOne | compiler/compile_toplevel.c:865-947 | a union is as large as one of its fields |
| AggregateLayout.CopiesAgree | compiler/abi_meta.c:370-443 | where all fields before it are named, lookup and fingerprint give a member the same place, and in a union always |
| AggregateLayout.CopiesAgreeIff | compiler/abi_meta.c:370-443 | in a struct they do so exactly when the bits used up are the same with and without the unnamed fields, up to a byte unless it is a bit-field |
| AggregateLayout.UnnamedBitsShiftMembers | compiler/compile_lvalue.c:60-63 | among bit-fields they differ by the width of the unnamed ones before the member, and agree if and only if there is none |
| AggregateLayout.UnnamedFiveBits | compiler/abi_meta.c:370-443 | in `struct { int a:3; int :5; int b:4; }` the two places of b are a byte apart |
| BitfieldAccess.Store | compiler/compile_lvalue.c:755-827 | the field's bits become the value's low bits; no other bit of memory changes |
| BitfieldAccess.ShiftRight | compiler/compile_lvalue.c:684-701 | a pass of `ror` from the last byte down moves the whole value one bit down if it has at most 129 bytes, and otherwise the last byte alone |
| BitfieldAccess.FillAbove | compiler/compile_lvalue.c:704-742 | every bit from the field's width on becomes 0, or 1; the bits below are kept |
| BitfieldAccess.Load | compiler/compile_lvalue.c:619-753 | the destination holds the field's bits, extended by its sign bit or 0, and nothing else changes; from 130 bytes on a field not at a byte's start keeps its bits unshifted below the last byte |
| BitfieldAccess.StuckIsWrong | compiler/compile_lvalue.c:684-701 | such a load is wrong as soon as two bits of the field that far apart differ below the last byte |
| BitfieldAccess.LoadAfterStore | compiler/compile_lvalue.c:619-827 | loading what was stored gives its low bits, zero- or sign-extended, when the field fits the bytes brought in |
| BitfieldAccess.OnesReadBackIffFits | compiler/compile_lvalue.c:669-682 | and only then: all ones are read back if and only if it fits |
| BitfieldAccess.FitsAtFullSize | compiler/compile_lvalue.c:669-682 | at full size a member fits if and only if its bits end within its declared type |
| BitfieldAccess.TwelveBitsAfterFive | compiler/compile_lvalue.c:669-682 | in `struct { int a:5; int b:12; }` with two-byte ints b does not |
| BitfieldAccess.OtherMembersKept | compiler/compile_lvalue.c:755-827 | storing into one member of a struct leaves every bit of every other member |
| OverloadCost.RepresentsAllValues | compiler/compile_overload.c:138-167 | one integer type represents another if and only if it holds all its values |
| OverloadCost.PromotionKeepsValues | compiler/compile_overload.c:170-219 | an accepted promotion loses no value |
| OverloadCost.NarrowerIsCheaper | compiler/compile_overload.c:203-219 | the promotion to the smaller type is always cheaper, whatever sign and byte order cost |
| OverloadCost.LiteralFitsIfHeld | compiler/compile_type.c:1009-1051 | a literal fits a type of up to 8 bytes if and only if the type holds its value, or the type is unsigned with 8 bytes and the literal too large for 64 bits |
| OverloadCost.MatchCost | compiler/compile_overload.c:370-423 | a cost if and only if the call is possible, and then the sum of the arguments' costs with the variadic surcharge |
| Overload.LookUp | compiler/compile_overload.c:1047-1110 | chooses f if and only if f is viable and strictly cheapest, reports ambiguity if and only if the minimum is shared, and tells an unknown name from one without a viable candidate; stated on the set of candidates |
| Overload.AnswerIsUnique | compiler/compile_overload.c:700-727 | exactly one of these answers is right |
| Overload.OrderDoesNotMatter | compiler/compile_overload.c:700-727 | so the order of declarations changes nothing |
| OverloadRank.ArraysArePointers | compiler/compile_overload.c:243-262 | an array by value counts as a pointer to its elements, anything else as what it is |
| OverloadRank.VoidPointersTake | compiler/compile_overload.c:295-300 | a single pointer to data goes to a single pointer to void, and nothing else does |
| OverloadRank.PassableIff | compiler/compile_overload.c:243-330 | what is no literal can be passed if and only if its type and shape are the parameter's, or to a pointer to void, or as an integer to one that holds its values or has its size |
| OverloadRank.ExactIsCheapest | compiler/compile_overload.c:243-330 | as it is, it costs nothing by reference and 1 by value; any conversion costs at least 12 |
| OverloadRank.ConversionsInOrder | compiler/compile_overload.c:243-330 | a pointer to void comes before promotions, these before an integer type of the same size that does not hold the values if they are by up to three bytes, and after it if by five or more |
| OverloadRank.LiteralsInOrder | compiler/compile_overload.c:243-330 | a literal goes to the smaller of two types, then to the unsigned one, and zero to a pointer of up to eight levels before any integer |
| OverloadRank.ExactWins | compiler/compile_overload.c:700-727 | where some function takes all arguments as they are, at most twelve by value, and none is a literal, the one chosen does so too: never a conversion, never a variadic function |
| OverloadRank.OnlyExactTie | compiler/compile_overload.c:700-727 | and with fewer than twelve no other function is as cheap |
| OverloadRank.TwelveAtMost | compiler/compile_overload.c:700-727 | with n arguments by value this holds of every set of candidates if and only if n is at most twelve |
| OverloadRegistry.SameSignature | compiler/compile_overload.c:426-483 | the two-cursor loop decides equality of signatures |
| OverloadRegistry.SignatureMeans | compiler/compile_overload.c:426-483 | signatures are equal if and only if both or neither function is variadic and their parameters agree in number and, one by one, in type, reference, pointer depth and dimensions |
| OverloadRegistry.CompatibleMeans | compiler/compile_overload.c:1306-1329 | declarations of one name and signature must agree in result and in being static, and only one may have a body |
| OverloadRegistry.OperatorsAreNamed | compiler/compile_overload.c:1278-1290 | operators are the functions whose name begins with the word |
| OverloadRegistry.Overloads.RememberOperator | compiler/compile_overload.c:486-524 | the table changes as specified, or not at all with the right error, and never holds an overload twice |
| OverloadRegistry.Overloads.RememberFunction | compiler/compile_overload.c:1278-1344 | the same for functions; operators go to their own table; the set by name keeps holding each name's first declaration |
| OverloadRegistry.RememberedIff | compiler/compile_overload.c:1306-1329 | a declaration is accepted if and only if it is compatible with every one before it |
| OverloadRegistry.ProgramAccepted | compiler/compile_overload.c:1278-1344 | a whole program's declarations are accepted if and only if any two are compatible, in any order; the table then has one entry for each overload, the defining one if there is one |
| ConstantFold.CastWraps | compiler/compile_init.c:307-324 | a cast below 8 bytes gives a value of the target type congruent to the operand modulo 256^size; from 8 bytes on it changes nothing |
| ConstantFold.CastIsOnly | compiler/compile_init.c:307-324 | and there is no other such value |
| ConstantFold.CastIsOfType | compiler/compile_init.c:307-324 | the result is of the target type unless a negative value is cast to 8 bytes or more, unsigned |
| ConstantFold.NarrowingComposes | compiler/compile_init.c:307-324 | casts are idempotent, and of two casts the narrower alone counts |
| ConstantFold.ShiftIsFloor | compiler/compile_init.c:228-243 | the complement trick divides by 2^count rounding down, for every 64-bit value and every count |
| ConstantFold.RightShiftIsFloor | compiler/compile_init.c:583-604 | accepted right shifts do, for signed and unsigned operands, and stay 64-bit values |
| ConstantFold.LeftShiftMultiplies | compiler/compile_init.c:583-596 | accepted left shifts multiply modulo 2^64 |
| ConstantFold.RefusedIff | compiler/compile_init.c:583-604 | a shift is accepted if and only if its count is from 0 to below the bits of the operand's type, and the refusals tell a negative count from one too large |

## Left out

- PeepholeSimulation.OptimizedMeansSame: asks that no branch reads the flags of a repeated load, and that no store stands between a load of X or Y from a zero-page name and its repeat; each suffices, and `ObservedFlags` and `StoredOperand` show programs that need it, but neither is claimed to be necessary for every program, since a branch may go the same way under both flags and a store may go elsewhere.
- AsmRelax.StableEndIsLargest: speaks of runs that end stable, over plain programs: names declared once, no .org, .res amounts that add distances to later labels and parts free of labels and subtract only the latter, branch targets that are labels of the same segment, other shrinkable operands that are free of labels or sums of labels and non-negative numbers. Constants may depend on labels where no such operand or amount mentions them.
- O65Reloc.WordIsRight: relocations are applied one to a place; several that overlap are not considered, nor an object file without a list of placed segments, for which the linker makes one up.
- AsmConstants.FinishedIsDepth: constants deeper than 64 may stay undefined without a report when their expression could be evaluated by then, as in the code.
- Overload.LookUp: the two lookups share one loop; what the operator lookup does with no viable candidate is left to its caller, as in the code.
- BitfieldAccess.Load: covers loads of at most 256 bytes, what an index register can count, and a destination apart from the field; Store likewise asks that the value and the field share no byte.
- Assembler.Context.Pass1: does not model segments defined by .segmentdef expressions, nor the size and end symbols published from a previous pass. What .org does is modelled, but the results on addresses, shrinking and tiling are for programs without it.
- Peephole input with verbatim assembler lines, beyond their resetting what is known.
- Names are resolved before the model begins: scoping of assembler symbols, `.proc`, imports and their validation, weak symbols.
- C's `long` is taken as unbounded in assembler expressions; constants of the compiler are 64-bit.
- Shrinking of zero-page operands in object mode, raw branch opcodes, and branches to a label plus an offset.
- Listings, maps, traces of passes, and diagnostics beyond their count.
- In lowering, expressions are leaves known by their effect on a trace; goto, inline assembler, declarations, floating-point comparison, overloaded operators in conditions, and nesting of 128 loops or more are not modelled. Lists of statements are lists of the model, and temporaries fit the one-byte push.
- In o65, `*`, < or > inside a sum, offsets out of order, exports and layout text.
- Bit-field fragments are modelled by what they do to memory; the pushing and restoring of the code's two scratch addresses around them is not, and neither is an aggregate whose member types have no size yet.
- Strings longer than the 256 bytes into which the second pass decodes them, for which the code writes something other than what the first pass reserved.
- Floating and address constants, designators, and lists of pending initializers.
- Overload resolution by an expected function type, descriptions of candidates, and mangled names.
- Runtime helpers, the rest of the linker, the simulator, the archiver, preprocessing, memory management and file access.

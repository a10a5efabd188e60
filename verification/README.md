# Verification of the HCC compiler

HCC compiles C to M1 assembly in two programs. The front end lowers structured C to
basic blocks of a small intermediate representation (`hcc/src/Hcc/Lower.hs`, with constants
folded by `Literal.hs` and `ConstExpr.hs`). The back end gives every temporary a stack slot
and emits accumulator code for it (`hcc/cbits/hcc_m1.c`). A replacement `strtod`
(`nix/sources/mes-libc/strtod.c`) reads floating constants. This project models the four
pieces and proves that they keep the meaning of what they are given.

`dafny verify dfyconfig.toml` checks everything.

## How the model is organised

**Machine and intermediate code.** `Words` has bytes, eight-byte words and sparse memory,
`Ir` the intermediate representation and its meaning, `Machine` the amd64 instructions and a
processor that runs them. What a callee does, and where labels are linked, is a parameter
(`World`), so the theorems hold for every environment. A step that C leaves undefined has no
result, and neither has an access to the words the compiler keeps for itself.

**Back end.** `Allocation` and `Emission` say, as functions, which slots the temporaries get
and which code is emitted; `Slots` and `Emitter` are the classes with the source's fields
(`next_slot`, `rax_temp`, `omit_store_temp`) whose methods are proved to compute them.
`Elision`, `Relation`, `InstrCorrect`, `CallCorrect`, `ListCorrect`, `Labels` and
`FunctionCorrect` prove that the emitted code simulates the intermediate code. `Emittable`
says which functions the back end accepts and `Traps` when intermediate code is undefined,
both exactly. `Convention` restates argument passing for any word size and any number of
argument registers.

**Lowering.** `CTypes`, `Source` and `Statements` are the source language (names resolved) and
its meaning, `Lowering` and `LowerStatements` the translation, `Represent` up to
`LowerFunction` the simulation, and `Compiler` puts both halves together. The code of three
constructs differs from C; `Source.Reading` says how they are read (as C has them, as they
are compiled, or with no result where the two differ), `Readings`, `Portability` and
`ReadingFlows` prove where the readings agree, and `Faults` runs three programs on which they
do not.

**What is accepted and what is defined.** The definitions that the meaning and the code have in
common are pinned to ISO/IEC 9899:2011 without naming them. `Typing` gives every expression its
type from the ranges and ranks of the types, `Acceptance` and `ObjectAcceptance` prove that the
compiler accepts exactly the well-formed programs, `Undefined` and `Stuck` that a program goes
wrong exactly when one of a list of faults happens, and `Equivalences` the identities by which C
defines compound assignment and the steps. The compiler is laxer than C in a few places, and
`Typing` says so where it is: it adds two pointers, compares and joins unlike operands when one
is a pointer, and takes `-`, `~` and a condition of any scalar; a pointer under `-` or `~`, or in
a `switch`, is accepted and has no meaning.

**Constants.** `ByteWords`, `Constants` and `Literals` are the byte arithmetic and `Spelling` what
a literal's spelling says; `ConstExpr` is the parser that evaluates as it reads, `Grammar` its
grammar by precedences and `Syntax` the grammar of section 6.5 by nonterminals, `ConstMeaning`
what an expression means, and `FoldingRuns` the agreement with run-time code.

**Objects and layout.** `Copies` clears and copies objects; `Layout` lays out structures, as
tightly as alignment allows (`LeastLayout`);
`Initialisers` compares static data with what run-time stores leave, and `Objects` runs the
lowered code of a local object's initialiser list.

**strtod.** `Strtod` has the digit loop and the normalisation loops.

## Findings

The modelled parts, those not under Left out, do what they promise except where listed here.
Each entry names the condition under which the code is right, proved for all inputs, and a
failing input.

- **A `_Bool` compound assignment** takes the truth of the unconverted word
  (`hcc/src/Hcc/Lower.hs:890-900`). It is right exactly unless true is added to 4294967295 in
  `unsigned int` (`Readings.CompoundExactly`); `_Bool x = 1; x += 4294967295u; return x;`
  returns 1 (`Faults.SumKeptTrue`).
- **A postfix step of a `_Bool` in memory** stores the unconverted byte
  (`hcc/src/Hcc/Lower.hs:949-952`). It is right exactly unless the step leaves the range of the
  type (`Readings.PostfixExactly`); `(*p)++` on true stores 2 and `(*p)--` on false stores 255
  (`Faults.StepStoredWhole`).
- **A case label** is compared without the conversion to the promoted type of the controlling
  expression (`hcc/src/Hcc/Lower.hs:253-266`). It is right, for every value of that type, exactly
  when the label's word is a value of the type (`SwitchClauses.LabelComparedExactly`);
  `switch (4294967295u) { case -1: return 1; } return 2;` returns 2 (`Faults.LabelMissed`).
- **A store keeps the cached temporary** even if it overwrites part of that temporary's own slot
  (`hcc/cbits/hcc_m1.c:2143-2155`). The cache is right after a store exactly unless a byte
  stored falls on a byte of the stored temporary's slot that differs from it
  (`InstrCorrect.CacheExactly`); the low byte of a temporary that holds 1, stored one past the
  temporary's own address, leaves rax holding 1 for a temporary that holds 257
  (`InstrCorrect.StaleCache`). The input is intermediate code handed to the back end: for a
  one-byte type the front end stores an immediate or a fresh temporary, whose address nothing
  takes (`hcc/src/Hcc/Lower.hs:1007-1033`), never a variable's own.

## Model

| member | source | states |
|---|---|---|
| Compiler.CompilerCorrect | hcc/src/Hcc/Lower.hs:20-187 | the machine code of any function that lowers halts with the value, calls, stack pointer and visible memory the function has in C, or still runs while the function does, if the program is portable or its run takes none of the three guards |
| Compiler.MachineRuns | hcc/src/Hcc/Lower.hs:20-187 | the same for every program, with the three constructs read as they are compiled |
| Compiler.DivergencePreserved | hcc/src/Hcc/Lower.hs:47-187 | a function that never returns compiles to code that never halts, after any number of steps |
| Compiler.CompilesExactly | hcc/src/Hcc/Lower.hs:24-45 | a function whose variables are declared compiles to machine code exactly when its body is well formed |
| Compiler.Invocable | hcc/src/Hcc/Lower.hs:24-45 | every function that compiles can be called, at any stack pointer and with any arguments |
| Compiler.WrongWhenStuck | hcc/src/Hcc/Lower.hs:47-187 | a call goes wrong in C exactly when it evaluates something undefined or a switch cannot select |
| Compiler.ReturnsItsType | hcc/src/Hcc/Lower.hs:40-45 | what a call of a function with a known type returns is a value of that type |
| Compiler.WholeEmits | hcc/cbits/hcc_m1.c:2554-2595 | the back end accepts every function the lowering produces |
| Emittable.FunctionEmits | hcc/cbits/hcc_m1.c:2554-2595 | the back end emits code for a function exactly when every temporary it mentions is defined, no result goes to a stack object, and branches on two operands compare |
| Traps.BlockFails | hcc/src/Hcc/TypesIr.hs:54-83 | a block transition is undefined exactly when an operand has no value, a result no slot, a quotient does not exist, an access is to storage not its own, a store overwrites the memory of the temporary it stores, or no block is the target |
| FunctionCorrect.FunctionSimulated | hcc/cbits/hcc_m1.c:2554-2595 | the code emitted for any well-formed function, with the rax cache, swapped operands, exchanged pairs, left-out stores and fall-through, takes the machine to the state any number of block transitions of the intermediate code reaches |
| FunctionCorrect.ReturnsIffHalts | hcc/cbits/hcc_m1.c:2554-2595 | unless the run is undefined, the intermediate code returns a word if and only if the machine halts with that word in rax |
| ListCorrect.ListRuns | hcc/cbits/hcc_m1.c:2462-2483 | the code of an instruction list ends in the list's state: a known rax_temp is in rax, and every temporary not elided is in its slot |
| Elision.ElidedNeverRead | hcc/cbits/hcc_m1.c:2425-2483 | a temporary whose store is left out anywhere has exactly one use in the whole function, and none that reads its slot |
| Elision.LeftOutExactly | hcc/cbits/hcc_m1.c:2425-2483 | a store is left out exactly when the result is used once and the next instruction, or what follows the list, can take it from rax |
| InstrCorrect.PairCorrect | hcc/cbits/hcc_m1.c:2307-2330 | two operands reach rbx and rax, parked and exchanged when rax already holds the right one |
| InstrCorrect.CommutativeValue | hcc/cbits/hcc_m1.c:2420-2423 | swapping the operands of a commutative operator keeps its value |
| InstrCorrect.CacheExactly | hcc/cbits/hcc_m1.c:2143-2155 | after the code of any store, rax holds the value the cache claims exactly unless, before it, address, width, slot and value put a differing byte on the stored temporary's own slot |
| InstrCorrect.StaleCache | hcc/cbits/hcc_m1.c:2143-2155 | the low byte of a temporary holding 1, stored one past its own address, leaves it holding 257 while rax, still taken for it, holds 1 |
| FunctionCorrect.BranchRuns | hcc/cbits/hcc_m1.c:1979-2000 | an emitted branch, inverted or falling through, arrives at the block its comparison selects |
| FunctionCorrect.InvertedComparison | hcc/cbits/hcc_m1.c:1823-1848 | the inverted operator holds exactly when the operator does not, for all words |
| Labels.BlocksMarks | hcc/cbits/hcc_m1.c:2554-2595 | emitted code sets each block label as often as blocks have the id and each conditional's labels as often as its temporary is one, and no other label |
| CallCorrect.ArgumentsCorrect | hcc/cbits/hcc_m1.c:2114-2126 | on amd64, for any argument count, the callee finds each argument's value from before the call, although pushing moves the stack pointer |
| Convention.ArgumentsCorrect | hcc/cbits/hcc_m1.c:2002-2126 | the same on every target, for any word size and register count: the callee's i-th parameter fetch yields the caller's i-th operand's value, and the cleanup restores the stack pointer |
| Convention.Amd64Instance | hcc/cbits/hcc_m1.c:2197-2235 | with eight-byte words and six registers the general code is the back end's own, instruction for instruction |
| Convention.I386Instance | hcc/cbits/hcc_m1.c:2067-2078 | on i386 the pushes alone leave every argument's four-byte word at 4 * i above the stack pointer, which the callee's fetch of parameter i reads |
| Convention.Arm64Instance | hcc/cbits/hcc_m1.c:2079-2113 | with eight registers, the first of them the accumulator, argument i below eight ends in register i, the others in order above the stack pointer |
| Allocation.FunctionLayout | hcc/cbits/hcc_m1.c:939-1005 | exactly the temporaries a function defines have locations, pairwise disjoint ranges within its frame, each one word or the fewest slots that cover the object its first definition makes it |
| Allocation.AllocFunctionLaid | hcc/cbits/hcc_m1.c:1090-1102 | all slots of a function are pairwise disjoint ranges within its frame, whose size is the slot count returned |
| Allocation.AllocBlocksGrows | hcc/cbits/hcc_m1.c:922-1005 | allocating more keeps every earlier location and places new ones past it |
| Allocation.AllocFunctionDomain | hcc/cbits/hcc_m1.c:967-1005 | exactly the temporaries the function defines have a location |
| Allocation.ObjectsCovered | hcc/cbits/hcc_m1.c:950-965 | in the finished layout, with slots of eight or four bytes, every temporary first defined as an object has the fewest slots that cover its bytes, every other one word |
| Allocation.UsesFromCount | hcc/cbits/hcc_m1.c:1016-1075 | a temporary is counted once for every operand it is and every time its address is taken, nested instructions included |
| Allocation.ExposedExactly | hcc/cbits/hcc_m1.c:1536-1552 | the temporaries kept in memory are exactly those whose address some instruction, nested ones included, takes |
| Slots.LocArray.EnsureLoc | hcc/cbits/hcc_m1.c:922-937 | growing the array keeps every entry and makes room for the temporary |
| Slots.LocArray.Define | hcc/cbits/hcc_m1.c:939-948 | the object's locations become those of the specification, use counts unchanged |
| Slots.LocArray.DefineObject | hcc/cbits/hcc_m1.c:950-965 | likewise for an object of a given size, with slots of eight or four bytes |
| Slots.LocArray.CountFunction | hcc/cbits/hcc_m1.c:1016-1088 | every counter grows by exactly the number of uses in the function; fails exactly if a used temporary has no location |
| Slots.LocArray.AllocateFunction | hcc/cbits/hcc_m1.c:1090-1102 | from an empty array, the locations and counts of the whole function |
| Emitter.EmitState.LoadOperand | hcc/cbits/hcc_m1.c:1479-1513 | appends the specified load, and leaves rax_temp as specified |
| Emitter.EmitState.Binary | hcc/cbits/hcc_m1.c:2287-2332 | appends the specified code of a binary operation |
| Emitter.EmitState.Instructions | hcc/cbits/hcc_m1.c:2462-2483 | appends the specified code of a list, choosing for each instruction whether its store is left out |
| Emitter.EmitCode | hcc/cbits/hcc_m1.c:2554-2595 | the emitter succeeds exactly when the specification does, with the same code |
| Typing.PromoteIsStandard | hcc/src/Hcc/Lower.hs:1541-1548 | promotion is that of section 6.3.1.1: int if it has every value of a type ranked no higher, every other type unchanged |
| Typing.UsualIsStandard | hcc/src/Hcc/Lower.hs:1556-1580 | the common type is the one and only type section 6.3.1.8 allows, from ranks and ranges, for all promoted types |
| Typing.TypeIsStandard | hcc/src/Hcc/Lower.hs:1240-1376 | every expression that has a type by the rules of section 6.5 has one, and it is the type the compiler computes |
| Typing.LiteralIsStandard | hcc/src/Hcc/Literal.hs:293-308 | a literal's type is the first of its row in section 6.4.4.1 that has the value |
| Integers.DivisionTruncates | hcc/src/Hcc/Literal.hs:394-401 | division and remainder are those of section 6.5.5: the dividend is restored and the remainder has its sign and is smaller than the divisor |
| Acceptance.ExprAccepted | hcc/src/Hcc/Lower.hs:508-1010 | an expression compiles exactly when it is well formed: names declared, operands of types its operators take |
| Acceptance.ListAccepted | hcc/src/Hcc/Lower.hs:47-187 | statements compile exactly when well formed: expressions are, break is in a loop or switch, continue in a loop, labels directly in a switch |
| Acceptance.FunctionAccepted | hcc/src/Hcc/Lower.hs:24-30 | a function lowers exactly when its body is well formed |
| Undefined.EvalFails | hcc/src/Hcc/Lower.hs:508-1010 | an expression has no value exactly when, evaluated in order, it meets a zero divisor or overflowing quotient, a bad shift count, a place that cannot be read or written, an operand changed after it was read, a call's word not of its type, or a missing type |
| Stuck.ListFails | hcc/src/Hcc/Lower.hs:47-187 | statements go wrong exactly when an expression they reach has no value, a label is no constant, or a switch is on no integer |
| Stuck.ListStays | hcc/src/Hcc/Lower.hs:129-135 | well-formed statements are left by break and continue only for a loop or switch around them |
| Stuck.ListReturns | hcc/src/Hcc/Lower.hs:40-45 | a returned value is converted to the function's type |
| Equivalences.PrefixIsCompound | hcc/src/Hcc/Lower.hs:936-960 | a prefix step has the value and effect of the compound assignment of 1, for every type, scaled for pointers |
| Equivalences.PostfixIsPrefix | hcc/src/Hcc/Lower.hs:936-955 | a postfix step has the effect of the prefix step and the value before it |
| Equivalences.CompoundIsAssignment | hcc/src/Hcc/Lower.hs:890-922 | a compound assignment to a variable is the assignment of the operation |
| LoweringCorrect.ExprRuns | hcc/src/Hcc/Lower.hs:508-1010 | the code of every expression ends with its value in its operand and the source state represented, changing only fresh temporaries and variables |
| LoweringCorrect.EffectsRun | hcc/src/Hcc/Lower.hs:280-326 | an expression lowered for its effects has exactly those effects |
| LoweringCorrect.LogicalRuns | hcc/src/Hcc/Lower.hs:755-773 | && and \|\| evaluate the right operand exactly when the left one does not decide |
| OperatorCorrect.OperatorRuns | hcc/src/Hcc/Lower.hs:781-856 | an operator's code on operands of any types leaves its value at the type C gives it |
| ReadingFlows.EvalInRange | hcc/src/Hcc/Lower.hs:1007-1058 | an expression's value is one of its type |
| Represent.CoerceRuns | hcc/src/Hcc/Lower.hs:1007-1058 | a conversion, folded or emitted, leaves the converted value |
| StatementCorrect.ListRuns | hcc/src/Hcc/Lower.hs:47-187 | the blocks of every statement list (if, while, do, for, switch with fall-through, break, continue, return, blocks) end at the matching target in the same state, or run for as long as the fuel lasts |
| StatementCorrect.ConditionRuns | hcc/src/Hcc/Lower.hs:189-225 | the blocks of a condition have the value form's effects and leave through the yes block exactly when its value is nonzero |
| StatementCorrect.SwitchRuns | hcc/src/Hcc/Lower.hs:241-278 | the dispatch and the clauses run what the switch selects, fall-through included |
| SwitchClauses.CollectFlat | hcc/src/Hcc/LowerSwitchHelpers.hs:14-35 | collecting clauses keeps every reachable statement in order and drops what no label reaches |
| SwitchClauses.ChooseSelects | hcc/src/Hcc/LowerSwitchHelpers.hs:46-60 | comparing with the cases in turn enters the clause the switch selects |
| SwitchClauses.DefaultSelects | hcc/src/Hcc/LowerSwitchHelpers.hs:46-53 | the default target is the first default clause, or the end |
| SwitchClauses.LabelComparedExactly | hcc/src/Hcc/Lower.hs:253-266 | the unconverted comparison selects what C selects, for every value, exactly when the label fits the promoted type |
| Readings.CompoundExactly | hcc/src/Hcc/Lower.hs:890-922 | a compound assignment to a _Bool is compiled as C has it, for every operator and all operands, exactly unless it adds 4294967295 to true in unsigned int |
| Readings.PostfixExactly | hcc/src/Hcc/Lower.hs:936-955 | the byte a postfix step stores is the one C has exactly unless a _Bool in memory leaves its range |
| Readings.EvalGuarded | hcc/src/Hcc/Lower.hs:881-955 | an evaluation that takes no guard has the same result in C and as compiled |
| Portability.PortableExactly | hcc/src/Hcc/Lower.hs:890-955 | an expression is portable exactly when no part of it adds an unsigned int to a _Bool or steps a _Bool in memory for its value |
| ReadingFlows.ListExactly | hcc/src/Hcc/Lower.hs:47-187 | statements are portable exactly when all expressions in them are and every label of every switch fits |
| Portability.EvalPortable | hcc/src/Hcc/Lower.hs:881-955 | a portable expression takes no guard, in any state |
| ReadingFlows.ListSame | hcc/src/Hcc/Lower.hs:47-187 | a run of statements that takes no guard, and every run of a portable program, does the same in C and as compiled |
| Faults.LabelMissed | hcc/src/Hcc/Lower.hs:253-266 | the machine code of a switch on 4294967295u with case -1 returns 2 where C returns 1 |
| Faults.SumKeptTrue | hcc/src/Hcc/Lower.hs:890-922 | the machine code of x += 4294967295u on a true _Bool returns 1 where C returns 0 |
| Faults.StepStoredWhole | hcc/src/Hcc/Lower.hs:949-952 | the machine code of (*p)++ on true stores 2, of (*p)-- on false 255, where C stores 1 |
| Wiring.ListWires | hcc/src/Hcc/Lower.hs:47-173 | lowered blocks have pairwise distinct ids from the entry id and the fresh range, and jump only to one another, the continuation, or the enclosing break and continue targets |
| Wiring.ListAvoids | hcc/src/Hcc/CompileM.hs:158-161 | no lowered jump goes to a block number never handed out |
| StatementShape.ListFormed | hcc/src/Hcc/CompileM.hs:153-161 | lowered blocks define every fresh temporary they use, and mention nothing else but variables |
| ExprShape.ExprGood | hcc/src/Hcc/CompileM.hs:153-156 | lowered expressions number fresh temporaries consecutively and define each of them |
| LowerFunction.WholeRuns | hcc/src/Hcc/Lower.hs:24-45 | a call that returns, returns the same word from the lowered blocks; one that uses up its fuel keeps them running |
| LowerFunction.ArgumentsConverted | hcc/src/Hcc/Lower.hs:718-741 | a callee starts with the same parameter values whether its caller converts the arguments to the parameters' types, as C does, or passes them as they are, as the code does |
| Words.BitFoldActsBitwise | hcc/src/Hcc/Literal.hs:53-59 | every bit of the infinite two's complement expansion of the fold is the operator applied to the operands' bits |
| ByteWords.MulSmallExact | hcc/src/Hcc/Literal.hs:157-168 | a byte word times a small number plus a carry, modulo 256 to the n |
| ByteWords.AddExact | hcc/src/Hcc/Literal.hs:437-441 | addition is exact modulo 256 to the n |
| ByteWords.NegateExact | hcc/src/Hcc/Literal.hs:443-444 | negation is two's complement |
| ByteWords.MultiplyExact | hcc/src/Hcc/Literal.hs:446-450 | multiplication is exact modulo 256 to the n |
| ByteWords.CompareExact | hcc/src/Hcc/Literal.hs:433-435 | comparison is the order of the values |
| ByteWords.RightSigned | hcc/src/Hcc/Literal.hs:452-456 | a right shift that keeps the sign bit is flooring division by two of the signed value |
| ByteWords.LeftExact | hcc/src/Hcc/Literal.hs:423-431 | a left shift is doubling modulo 256 to the n |
| ByteWords.DivideExact | hcc/src/Hcc/Literal.hs:458-471 | for any equal lengths and nonzero divisor, a = q*b + r with r below b |
| Constants.QuotientValue | hcc/src/Hcc/Literal.hs:394-401 | signed / and % are truncating division, converted to the type; refused exactly for a zero divisor |
| Constants.ShiftedValue | hcc/src/Hcc/Literal.hs:423-431 | a shift is refused exactly for a negative count or one not below the width, and exact otherwise |
| Constants.ConvertValue | hcc/src/Hcc/Literal.hs:375-377 | a conversion of bytes converts the value, for any size |
| Constants.PromoteValue | hcc/src/Hcc/Literal.hs:334-336 | promotion keeps the value of a constant of any size, and leaves one of at least four bytes |
| Constants.CommonValue | hcc/src/Hcc/Literal.hs:369-373 | the common type is that of the usual arithmetic conversions, and both values are converted to it |
| Constants.FoldingAgrees | hcc/src/Hcc/Literal.hs:386-421 | folding an operator gives the value it has at run time, refused exactly for a zero divisor or bad shift count |
| FoldingRuns.FoldedAsRun | hcc/src/Hcc/Lower.hs:781-856 | the lowered code of an operator on two constants' values leaves the extension of the folded constant, for all operands but the least 64-bit integer divided by -1 |
| Literals.LiteralExact | hcc/src/Hcc/Literal.hs:290-329 | a literal is accepted exactly when its value is below 2^64, with that value and the first candidate type that holds it, for either size of long |
| Literals.LiteralTypeAgrees | hcc/src/Hcc/Literal.hs:293-301 | on a 64-bit target that type is the one section 6.4.4.1 of ISO/IEC 9899:2011 gives |
| Spelling.SpellingIsStandard | hcc/src/Hcc/Literal.hs:129-150 | a literal with a prefix, digits and suffix letters is accepted exactly when its place value is below 2^64; it has that value and the first type of its row that holds it, for either size of long and under #if |
| Spelling.DigitWorth | hcc/src/Hcc/Literal.hs:146-151 | whatever is read as a digit is the digit of that worth |
| Grammar.RoundTrip | hcc/src/Hcc/ConstExpr.hs:24-113 | the minimally parenthesised tokens of any tree are all read, and yield exactly the tree evaluator's value or fault |
| Grammar.AcceptsTrees | hcc/src/Hcc/ConstExpr.hs:24-113 | the parser returns a value and a rest exactly when some tree of the grammar, with the operators' precedence and associativity, spells what was read and has that value |
| Grammar.ParsedIsTree | hcc/src/Hcc/ConstExpr.hs:24-46 | whatever is parsed at a precedence is a tree at least that tight, ended by a token that does not continue it |
| Syntax.ProperIsStandard | hcc/src/Hcc/Operators.hs:7-30 | the trees the precedences allow are exactly the conditional expressions of section 6.5, given by one predicate for each nonterminal |
| Syntax.AcceptsStandard | hcc/src/Hcc/ConstExpr.hs:24-113 | the parser returns a value exactly when a tree of that grammar spells what was read and has that value |
| ConstExpr.LookupFirst | hcc/src/Hcc/ConstExpr.hs:88-95 | a name has the value of its first entry in the environment |
| ConstMeaning.LiveIsLazy | hcc/src/Hcc/ConstExpr.hs:33-64 | evaluation with the live flag is lazy evaluation in integers: an operator's fault surfaces exactly where it is live, and a result's size and signedness depend on no operand's value |
| ConstMeaning.ParsedMeaning | hcc/src/Hcc/ConstExpr.hs:14-46 | parsing the tokens of a tree gives the integer the tree means, at its type, or its fault |
| ConstMeaning.ConditionMeaning | hcc/src/Hcc/ConstExpr.hs:17-22 | a condition of #if holds exactly when its expression means something other than zero |
| Copies.CopyRuns | hcc/src/Hcc/Lower.hs:1110-1146 | copying between objects that coincide or do not meet is a byte copy, accesses only their bytes, and changes nothing else |
| Copies.ZeroRuns | hcc/src/Hcc/Lower.hs:1092-1108 | clearing zeroes exactly the object's bytes and accesses nothing else |
| Layout.MemberFound | hcc/src/Hcc/Lower.hs:1450-1499 | member lookup, through nested unnamed aggregates, succeeds exactly when the name is there, and yields a place inside the aggregate and aligned |
| Layout.NestedIsShifted | hcc/src/Hcc/Lower.hs:1484-1499 | the nested lookup is the outer one from where the member starts |
| Layout.PlaceInside | hcc/src/Hcc/Lower.hs:1749-1825 | every nested place ends within its aggregate at a multiple of its alignment |
| Layout.PlacesApart | hcc/src/Hcc/Lower.hs:1795-1804 | places reached through different fields of a structure do not overlap |
| Layout.SizeAligned | hcc/src/Hcc/Lower.hs:1789-1825 | an aggregate's size is a multiple of its alignment |
| LeastLayout.ScalarAligned | hcc/src/Hcc/Lower.hs:1749-1758 | a scalar of one, two, four or eight bytes is aligned to its size |
| LeastLayout.AggregateAligned | hcc/src/Hcc/Lower.hs:1760-1766 | an aggregate's alignment is the least that every member's divides |
| LeastLayout.StructureAllowed | hcc/src/Hcc/Lower.hs:1789-1804 | the layout of a structure has every member aligned, each past the one before, and a size that keeps arrays aligned |
| LeastLayout.StructureLeast | hcc/src/Hcc/Lower.hs:1789-1804 | no layout that does so has a member earlier or a smaller size |
| LeastLayout.UnionLeast | hcc/src/Hcc/Lower.hs:1806-1820 | the size of a union is the least multiple of its alignment that has room for every member |
| LeastLayout.ArrayIs | hcc/src/Hcc/Lower.hs:1686-1748 | an array is as strict as its elements and as large as all of them |
| Layout.PadExact | hcc/src/Hcc/Lower.hs:2054-2085 | padded data has exactly the size asked for, whatever its bytes and addresses |
| Initialisers.DataExact | hcc/src/Hcc/Lower.hs:1827-1831 | the data emitted for any initialiser of any type has exactly the type's size |
| Layout.WalksAgree | hcc/src/Hcc/Lower.hs:459-471 | member lookup, static data and run-time initialisers use the same offset for a field |
| Initialisers.ClearedAndStored | hcc/src/Hcc/Lower.hs:426-506 | for initialisers nested to any depth through structures, arrays and unions, clearing the object and making the run-time stores leaves exactly the bytes of its static data, every store inside the object |
| Objects.ObjectRuns | hcc/src/Hcc/Lower.hs:356-366 | the lowered code of a local object with a list, of any nested shape and any scalar expressions, runs as C initialises it: cleared, then each expression evaluated in order, converted, and stored at its place |
| Objects.ObjectHoldsData | hcc/src/Hcc/Lower.hs:356-366 | if the expressions are constants, that code leaves in the object's bytes exactly the static data the same list becomes, and changes no other memory |
| ObjectAcceptance.ObjectAccepted | hcc/src/Hcc/Lower.hs:356-506 | the declaration of an aggregate with a list compiles exactly when scalars get one well-formed expression each and aggregates lists |
| Strtod.ReadDigits | nix/sources/mes-libc/strtod.c:103-122 | the digits never overflow 64 bits; the scale is zero, and the significand exact, exactly when the value is below 2^64; beyond it the scaled significand never exceeds the value, has at least 60 bits, and is short of it by at most one part in 2^59 for each bit of scale |
| Strtod.FromScaled | nix/sources/mes-libc/strtod.c:29-60 | normalisation ends in [2^52, 2^53) with the ceiling of the scaled value, and the bits are its binary64 encoding, zero and infinity out of range |
| Strtod.RoundedUp | nix/sources/mes-libc/strtod.c:38-45 | rounding up loses less than one unit of the last place |
| Strtod.DecodeEncoded | nix/sources/mes-libc/strtod.c:50-60 | decoding the bits as section 3.4 of IEEE 754-2008 says gives back exponent and significand |
| Strtod.ParseWhole | nix/sources/mes-libc/strtod.c:85-125 | a signed whole number below 2^64 becomes the bits of its value rounded up to 53 bits; from 2^64 on the bits are within one unit of the last place above it and the lost parts below it, or infinity |
| Strtod.NormalClose | nix/sources/mes-libc/strtod.c:38-60 | normalising a shortened significand keeps it within those bounds |

## Left out

- The i386, AArch64 and RISC-V encoders, and the spelling of M1 instructions: the machine runs abstract amd64 instructions; of the other targets only argument passing (`Convention`) and slot allocation are modelled.
- Addresses do not wrap around: a word past 2^64 - 1 is a different byte, not byte 0.
- Callees return, and pop nothing: a call is an effect on memory chosen by `World`.
- Programs undefined in C have no result, nor has one that accesses the words the compiler keeps for itself; signed overflow is taken modulo the range.
- `goto`, labels, inline assembly, and `case` labels nested below the switch body. Arrays and structures are initialised (`Objects`) but are not variables of the statement language.
- Whole programs: functions are compiled one at a time, and calls are steps of `World`; that compiled functions implement a `World` is not proved.
- Parameter types of callees: a call passes its arguments as they are, as for a function without a prototype, so a call event shows 300 where C passes 44 to a char (`LowerFunction.ArgumentsConverted` says why the callee does not see it). A call has a result only if the callee's word is one of the result type.
- LoweringCorrect.ExprRuns: covers the expressions of `Source.Expr`; address-of, indexing, members, strings, `sizeof`, floating point and indirect calls of the cited lines are not in it, because their operands are objects, which are no variables here.
- LoweringCorrect.EffectsRun: covers calls, steps and assignments; indirect calls, ignored builtins and assembly of the cited lines are not in it.
- Floating point, structures and arrays as expression values, `sizeof`, string literals, the address-of operator and indirect calls in the source language (the back end has addresses and indirect calls).
- Name scoping: names are resolved to the numbers of their temporaries, and every variable is declared once.
- Diagnostics: that a program is refused is modelled, the message is not. What follows a jump in a list is not looked at, by the compiler or here.
- Constants of 32-bit targets are folded (`Literals` takes the size of a long); lowering is for 64-bit targets.
- Character and string tokens carry their decoded value; escapes are not decoded.
- `strtod` on digits after a point and decimal exponents, which it leaves to floating-point arithmetic.
- Arrays of unknown size, whose initialiser decides it; excess initialisers, which C forbids. `Objects` initialises scalars with expressions; an aggregate or a string as an item is a copy (`Copies`).
- Size overflow checks of arrays, and the caches of structure sizes and members.
- File and stream input and output, argument parsing, the preprocessor and the parser of C.

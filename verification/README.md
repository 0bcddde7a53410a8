# A verified model of a small C compiler for RISC-V

The compiler translates a subset of C to RV32IM assembly. This project models it from the text of a
program to the exit status of the machine, and proves it correct:

* **Lexer** (`Lexical`, `Lexer`): a cursor over the text with `next` and `back`. `LexicalGrammar` says
  without it which texts spell which tokens; `LexicalRoundTrip` writes tokens as text.
* **Parser** (`Syntax`, `Parser`, `TokenStream`): a recursive-descent parser over a token stream, its
  grammar (`Grammar`, `StatementGrammar`), soundness and completeness (`ParserSound`,
  `ParserComplete`, `StatementSound`, `StatementComplete`, `ProgramSound`), printing with minimal
  parentheses (`Printer`, `ProgramPrinter`) and the way from text to tree and back (`FrontEnd`).
* **Semantic pass** (`Resolve`, `Scope`) on the chained hash map (`HashMap`): names become slots of a
  stack frame (`Slots`, `Bindings`), and `Acceptance` says which programs pass. `NameSemantics` gives
  programs a meaning by lexically scoped names, with the values of the operators after C99, and
  `NameMeaning` shows that resolving names preserves it for programs that keep the rules of `Scoping`
  (`TidyParts`).
* **Code generator** (`CodeGen`, `Generator`): seven temporaries with flags, label counters, frames,
  the spill protocol around calls, and structured control flow as labels and branches. `Machine` is an
  RV32 machine limited to the instructions that are emitted, after the chapters "RV32I Base Integer
  Instruction Set" and "'M' Standard Extension" of the RISC-V Unprivileged ISA manual. `Semantics` is
  a big-step semantics of resolved programs on 32-bit words with a bound on stack space and on loop
  iterations. `Simulation` shows that the machine does what the semantics says and `Correctness` draws
  the conclusions for functions and programs; `Limits` says what the code does where a guard fails, and
  exactly when. `Registers`, `FrameLayout`, `Labels`, `LabelText`, `Encoding` and `CodeSize` hold what is
  true of the generator on its own.
* **Arena and vectors** (`Arena`, `Vector`): the memory below everything else.
* `EndToEnd` puts the parts together, `Reformat` shows that every text that is read can be written anew
  without changing its code, `Subterms` says the guards part by part, `Compilable` says exactly which
  programs the generator compiles, and `Fibonacci` and `FibonacciRun` show that a recursive program of the
  test suite meets all guards and ends with the right status.

Where the original changes state step by step (generator, token stream, lexer, scopes, hash map,
arena, vector), the model has a class whose methods make the same changes, and each method is proved
to compute a function on which the theorems are stated.

## Where the code differs from what its documentation promises

The project's README promises working `if`/`else`, `&&`/`||`, functions and recursion. The code, which
the model follows, keeps these promises under conditions, which are decidable predicates here:

* No jump leads over the else-branch, so the then-branch runs into it (`src/asm.c:593-600`), and both
  operands of `&&` and `||` are evaluated (`src/asm.c:446-447`). `Semantics` has both readings, `C` and
  `Compiled`; the machine is proved to follow the second, and `Portability` says when it is the first:
  exactly for then-branches that never end normally, and for right operands without effects.
* The spill base of a call uses the size of the called function (`src/asm.c:322`), and a call inside an
  argument reuses slots of the outer call. `Guards.Safe` keeps account of the slots in use and rejects a
  call that would meet them; `Guards.SlotsMeetIff` says when two calls do, and `Limits.NestedCallRun` what
  is then overwritten. Recursion with call-free arguments always passes.
* Assignments to parameters use an offset that is never set (`src/asm.c:911-914`), so that a later read
  does not see them (`Limits.ParamReadsArgument`); a function that is not void restores its caller's frame
  only in `return` (`src/asm.c:718-725`, `Limits.FrameRestoredIff`); and constants and offsets must fit
  12 bits (`src/asm.c:288`, `Encoding.ListingEncodesIff`). `jalr ra` (`src/asm.c:299`) links into ra while
  returning; the machine does so too.
* Parameters stay in the global scope (`src/sema.c:272-280`), so a later function may use them by
  mistake; enumeration constants are added without a check; and the parser accepts a declaration as a
  branch. `Scoping.TidyProgram` excludes these.
* `expect` lets the end of the stream pass (`src/parse.c:53-59`), so a program that is cut off may be
  accepted; `ProgramSound` says exactly which accepted strings are programs.
* A last character that could start a longer operator, one of `/ & | = ! < >`, keeps the lexer in place
  forever if it is read on its own, as in `x =` but not in `x ==` (`src/lex.c:301-314`);
  `Lexical.LastCharacterIff` decides it for every text without NUL characters, which end the text.

## Conventions

A word is kept as its signed value and an address as its unsigned reading; the program counter is an
index into the listing, in which labels are entries. `None` stands for an exit of the compiler, a read
through a null pointer, a stuck machine or a source run without a defined result, as each definition
says. Stack space is a parameter: a run that needs more than `room` bytes has no result, and the stack
lies below the address `top`, at most 2^32.

## Model

| member | source | states |
|---|---|---|
| EndToEnd.CompilerCorrect | src/main.c:22-51 | the whole compiler: if lexing, parsing, the semantic pass and code generation of a text give a listing, the text keeps the decidable `Trusted` guards, and C99 semantics *by names* gives its main the value v, then the RV32 machine run on the listing reaches the exit system call with a0 = v, and no run of it stops with anything else |
| Reformat.ReformatKeepsTree | src/main.c:22-51 | for every text that is read at all: writing its tree with as few parentheses as needed and one space after each token, and reading that, gives the same tree |
| Reformat.ReformatKeepsCode | src/main.c:22-51 | so the reformatted text compiles to the same code, and is trusted if and only if the text was |
| EndToEnd.PrintedProgramCompiles | src/main.c:22-51 | the text of every program tree without dangling else is parsed back to that tree, so it compiles to the code of that tree |
| Fibonacci.FibIsCompiled | tests/runtime/fib.c:1-15 | the guards are met in practice: the recursive Fibonacci program of the repository's tests, as the text of its tokens with one space after each, is parsed to that program, is `Trusted` and compiles |
| FibonacciRun.FibYields | tests/runtime/fib.c:1-10 | its function gives, by names and C99, the Fibonacci number of every argument modulo 2^32, with a stack of 112 bytes for each level of recursion |
| FibonacciRun.FibCompiledRuns | tests/runtime/fib.c:12-15 | all requirements of EndToEnd.CompilerCorrect met together: every text with that syntax tree compiles to a listing that, from any start with 1456 bytes of stack, runs to the exit system call with status 89 and stops nowhere else |
| CodeSize.ListingSize | src/asm.c:1019-1028 | a listing is at most 24 times as long as its program has nodes, and four, so the bound on its length in EndToEnd.CompilerCorrect is one on the size of the program |
| Fibonacci.ProgResolves | src/sema.c:422-448 | what the semantic pass makes of that program |
| Correctness.FunctionCorrect | src/asm.c:667-726 | whole-program calls and recursion: a compiled function run from its label continues at the caller's return address with the source value in a0, sp and s0 restored, and all memory at or above the entry sp unchanged, through any depth of guarded calls |
| Correctness.ProgramCorrect | src/asm.c:995-1003 | `_start` reaches `ecall` with main's value in a0 and 93 in a7 |
| Correctness.ExitStatusIsMeaning | src/asm.c:995-1019 | a stopped run of the listing has the source value in a0: the machine is deterministic, so nothing else can come out |
| Correctness.StopsOnce | src/asm.c:1013-1017 | two stopped runs from one state end in the same state |
| Limits.FrameRestoredIff | src/asm.c:718-725 | for any arguments and any run of the body that ends: a compiled function leaves with its caller's sp and s0 if and only if it is void or the run returned |
| Limits.LeavesFrame | src/asm.c:718-725 | otherwise, whatever the body, it comes to the jump at the end of its code and leaves from there with sp and s0 of its own frame, for the address that is then in ra |
| Correctness.EmptyBodyLeavesFrame | src/asm.c:718-725 | the instance of an empty body, which goes back to its caller |
| Limits.StoredWhereLoadedIff | src/asm.c:656-777 | the slot that an assignment stores to is the slot that its target is loaded from if and only if the target is a local variable |
| Limits.ParamAssignRun | src/asm.c:779-797 | the code of an assignment to a parameter comes to its end if and only if the offset of its entry, which is never set, is a multiple of 4 of at most 2003; then the value is stored at the distance that this offset gives, and all parameters are as before |
| Limits.ParamReadsArgument | src/asm.c:779-797 | so a later read of the parameter gives the argument of the call, whatever was assigned |
| Guards.SlotsMeetIff | src/asm.c:341-351 | for any two callees and numbers of arguments: the slots of a call meet those already filled by the enclosing call if and only if both are used and each begins before the other ends |
| Guards.SharedSlotIff | src/asm.c:341-351 | for frames of multiples of 4, if and only if some word is a slot of both |
| Guards.NestedCallSafeIff | src/asm.c:322-351 | a call whose arguments are call-free or calls of call-free arguments passes the spill guard if and only if every call fits the frame and no inner call clashes with what is stored before it |
| Limits.NestedCallRun | src/asm.c:341-351 | after an inner call, each stored argument of the outer one is as before, unless its slot is one of the inner call's: then it is exactly the inner argument stored there |
| Correctness.NestedCallOverwrites | src/asm.c:341-351 | why spill slots must be apart: in f(1, f(2, 3)) the inner call stores to the slot that holds the outer call's first argument before that is loaded; the guard rejects this order and accepts f(f(2, 3), 1) |
| Simulation.ExprRun | src/asm.c:922-946 | expression compilation preserves meaning: running the code of an expression leaves its value in the returned register, makes exactly the local updates its assignments demand, keeps every register that was busy, every held spill slot and the frame, including calls and recursion |
| Simulation.LeafRun | src/asm.c:656-777 | constants, enumeration constants, parameters and locals are loaded from where they are |
| Simulation.NotRun | src/asm.c:799-821 | `!` by seqz |
| Simulation.BinRun | src/asm.c:437-573 | binary operators after both operands, the left one first |
| Simulation.AssignRun | src/asm.c:779-797 | an assignment stores to the slot of its local, whose address is computed by subtraction from s0, and nothing else |
| Simulation.ArgsRun | src/asm.c:339-351 | arguments are evaluated left to right into consecutive spill slots that survive the evaluation of the later ones |
| Simulation.AnyCallRun | src/asm.c:314-385 | the call protocol: spill busy temporaries, evaluate and load arguments, call, reload; the result is the callee's value and the caller's locals, temporaries and held slots are as before |
| Simulation.FuncRun | src/asm.c:667-726 | a function's prologue, body and epilogue from label to return |
| Simulation.StmtRun | src/asm.c:948-993 | statement simulation: every terminating source run of a statement is matched by a machine run to the end of its code, or to the function's return, with the same locals |
| Simulation.StmtsRun | src/asm.c:644-654 | sequences of statements |
| Simulation.ReturnRun | src/asm.c:603-642 | return restores ra, sp and s0 and jumps to the return address with the value in a0 |
| Simulation.VarDefRun | src/asm.c:728-744 | a definition stores its value in the slot of its variable |
| Simulation.IfRun | src/asm.c:575-601 | if, with the fall-through from the then-branch into the else-branch that the emitted code has |
| Simulation.WhileRun | src/asm.c:823-847 | while, for any number of iterations |
| Simulation.ForRun | src/asm.c:849-897 | for, including missing clauses |
| Simulation.ForLoopRun | src/asm.c:849-897 | its loop, for any number of iterations |
| Simulation.EffectRun | src/asm.c:948-993 | an expression statement, whose value is not needed |
| Operators.OpRun | src/asm.c:437-573 | the code of each of the seventeen operators computes its 32-bit C99 value: == and != by wrapping sub and seqz or snez, <= and >= by slt and xori, the logical operators by branches |
| Operators.OpWordIsResult | src/asm.c:437-573 | and that value is the defined one for every defined operand pair |
| Words.BitsOfOperations | src/asm.c:149-163 | bit by bit, for any two words and each of the 32 bits: a bit of x & y is set if and only if both are, of x bar y if one is, of x ^ y if they differ |
| Words.SameBits | src/asm.c:149-163 | and the 32 bits determine the word |
| Words.BitwiseOperations | src/asm.c:149-163 | the same for the bits of the arithmetic expressions, at any width |
| Words.DivisionTruncates | src/asm.c:437-573 | what / means: the remainder that belongs to the quotient is smaller than the divisor and has the sign of the dividend |
| Words.QuotientUnique | src/asm.c:437-573 | and no other quotient is such |
| Words.DoubledIsProduct | src/asm.c:139-142 | what << means: multiplication by a power of two |
| Words.HalvedIsQuotient | src/asm.c:145-148 | what >> means: division by a power of two, rounding down |
| Words.WrappedDifferenceIsZero | src/asm.c:119-133 | a wrapped difference is zero exactly for equal words, which is why == may be compiled to sub |
| Activation.Enter | src/asm.c:687-713 | the prologue saves ra, s0 and the argument registers and sets up s0, changing no memory outside the new frame |
| Activation.Leave | src/asm.c:603-642 | the epilogue gives back the caller's sp and s0 and the return address |
| Activation.SaveTempsRun | src/asm.c:322-335 | spilling stores every busy temporary to its own slot |
| Activation.RestoreTempsRun | src/asm.c:366-376 | reloading in the opposite order brings each of them back |
| Activation.LoadArgsRun | src/asm.c:353-360 | spilled arguments are loaded into a0, a1, … in order |
| Portability.EvalAgrees | src/asm.c:387-435 | evaluating both operands of the logical operators is the short-circuit evaluation of C99 6.5.13 and 6.5.14 for portable expressions, whose right operands of the logical operators have no effect |
| Portability.ExecAgrees | src/asm.c:575-601 | the compiled reading of if/else is the C99 one for portable statements, whose then-branches with an else never end normally |
| Portability.RunBodyAgrees | src/asm.c:667-726 | hence for whole functions |
| Portability.IfElseRightIff | src/asm.c:593-600 | gen_if is right for a then-branch with every condition and else-branch if and only if that branch can never end normally |
| Portability.IfElseRunsBoth | src/asm.c:593-600 | a concrete if/else whose compiled code runs both branches |
| Portability.LogicalRightIff | src/asm.c:387-447 | the code of the logical operators is right for a right operand, whatever the left one and in every state, if and only if the right operand has no effect |
| Portability.AndEvaluatesBoth | src/asm.c:446-447 | a concrete && whose right operand is evaluated although the left one is false |
| Portability.NeverEndsNormally | src/asm.c:593-600 | the decidable test for a branch that never ends normally is sound |
| Registers.BusySetOfExpr | src/asm.c:229-249 | busy-set discipline: after an expression the busy registers are the old ones plus exactly the returned one, which was free before, even across the free-all and restore of a call |
| Registers.BusySetOfArgs | src/asm.c:339-351 | evaluating arguments leaves the busy set as it was |
| Registers.BusySetOfStmt | src/asm.c:948-993 | every statement generator leaves the busy set exactly as it found it |
| Registers.ExactRegisterNeed | src/asm.c:229-242 | code generation avoids the exit for lack of registers if and only if the number of free registers is at least Need(e) |
| Compilable.CompilesIff | src/asm.c:229-242 | the code generator comes to an end without an exit if and only if every expression of the program needs at most seven registers, none is missing where a value is needed, and every called function exists |
| Compilable.StmtCompiles | src/asm.c:948-993 | the same for a statement |
| Registers.ExactArgsNeed | src/asm.c:339-351 | the same for argument lists |
| Registers.ChainNeedsTwo | src/asm.c:437-573 | any left-nested chain of + - * / over leaves needs at most two registers |
| FrameLayout.SlotsDisjoint | src/asm.c:687-713 | for locals of a multiple of 4 and a callee frame of the same size, the slots of ra, s0, a0-a7, locals, seven temporaries and eight arguments are pairwise disjoint and inside the frame |
| FrameLayout.SpillSlotsMisplaced | src/asm.c:322 | the spill base is taken from the called function: a spill slot overlaps a variable of the caller if and only if the callee's variables take at least 8 bytes less, and one lies outside the frame if and only if the last one does |
| FrameLayout.SomeFramesAreFull | src/asm.c:687-690 | the bound is reached: for some sizes the deepest slot is the last word of the frame |
| Resolved.FrameSize | src/asm.c:687-690 | the frame is a multiple of 16 and exceeds what is used by at least 4 bytes |
| Subterms.GoodStmtIff | src/asm.c:285-290 | the guards of the code generator hold of a statement if and only if they hold of every statement inside it |
| Subterms.GoodExprIff | src/asm.c:285-290 | and of an expression if and only if each constant in it has 12 bits, each variable is in the frame, only local variables are assigned and no call has more than eight arguments |
| Subterms.PortableStmtIff | src/asm.c:593-600 | a statement is portable if and only if every expression in it is, and every then-branch before an else never ends normally |
| Subterms.PortableIff | src/asm.c:446-447 | an expression is portable if and only if no right operand of the logical operators in it has an effect |
| Guards.RecursionFits | src/asm.c:322-347 | seven temporaries and eight arguments of a recursive call fit into every frame |
| Guards.RecursionIsSafe | src/asm.c:322-347 | a recursive call with call-free arguments always meets the spill guard |
| Guards.CallFreeIsSafe | src/asm.c:314-385 | an expression without calls always meets it |
| Labels.ListingLabelsUnique | src/asm.c:73-117 | in the listing of a program with distinct function names no label is defined twice |
| Labels.DefinedOnce | src/asm.c:73-117 | any one label is defined at most once |
| Labels.LabelsOfFunc | src/asm.c:667-726 | every branch of a function's code goes to a label defined in that same code, and only labels of its own counter range are defined there |
| Labels.LabelsOfStmt | src/asm.c:575-601 | a statement defines a generated label of its counter range at most once, and none outside of it; a label that it branches to is defined in it exactly once |
| Labels.LabelsOfExpr | src/asm.c:387-435 | the same for the labels of the logical operators |
| LabelText.TextInjective | src/asm.c:73-117 | different labels have different texts, for function names outside the generated patterns |
| LabelText.ListingTextsUniqueIff | src/asm.c:73-117 | the texts of all labels defined in a listing are pairwise distinct if and only if no function is named `_start` or like a label that was generated for this listing |
| LabelText.ListingTextsUnique | src/asm.c:73-117 | hence they are if no function name reads like any generated label or `_start` |
| Encoding.ListingEncodesIff | src/asm.c:285-290 | every immediate and offset of a listing has 12 bits if and only if all frames, constants, local variables and deepest spill slots of its program do |
| Encoding.GoodListingEncodes | src/asm.c:285-290 | which the guards guarantee |
| GeneratorObject.Generator.AllocRegister | src/asm.c:229-242 | takes the first free register, or fails when there is none |
| GeneratorObject.Generator.FreeRegister | src/asm.c:244-249 | clears exactly one flag |
| GeneratorObject.Generator.EvalAsm | src/asm.c:922-946 | emits exactly the code of the specification, returns its register and leaves its flags and counters |
| GeneratorObject.Generator.EvalIdent | src/asm.c:746-777 | identifiers, by kind of symbol |
| GeneratorObject.Generator.EvalUnary | src/asm.c:799-821 | negation |
| GeneratorObject.Generator.EvalVarAsgn | src/asm.c:779-797 | assignments |
| GeneratorObject.Generator.EvalBinExp | src/asm.c:437-573 | binary expressions |
| GeneratorObject.Generator.EvalLogAnd | src/asm.c:387-410 | the branches of && |
| GeneratorObject.Generator.EvalLogOr | src/asm.c:412-435 | the branches of logical or |
| GeneratorObject.Generator.EvalFuncCall | src/asm.c:314-385 | calls, with the flags as the spill loop leaves and the reload loop restores them |
| GeneratorObject.Generator.SpillTemps | src/asm.c:322-335 | the spill loop over the flags |
| GeneratorObject.Generator.ReloadTemps | src/asm.c:366-376 | the reload loop, which goes backwards |
| GeneratorObject.Generator.EvalArgs | src/asm.c:339-351 | the argument loop |
| GeneratorObject.Generator.LoadArgRegisters | src/asm.c:353-360 | the loop over the argument registers |
| GeneratorObject.Generator.GenNode | src/asm.c:948-993 | emits exactly the statement code of the specification |
| GeneratorObject.Generator.GenCompStmt | src/asm.c:644-654 | blocks |
| GeneratorObject.Generator.GenIf | src/asm.c:575-601 | if and else |
| GeneratorObject.Generator.GenRet | src/asm.c:603-642 | return |
| GeneratorObject.Generator.GenVarDef | src/asm.c:728-744 | definitions |
| GeneratorObject.Generator.GenWhile | src/asm.c:823-847 | while |
| GeneratorObject.Generator.GenFor | src/asm.c:849-897 | for |
| GeneratorObject.Generator.GenFuncDef | src/asm.c:667-726 | function definitions |
| GeneratorObject.Generator.GenAsm | src/asm.c:1019-1028 | the whole listing |
| ParserSound.ExpressionSound | src/parse.c:340-346 | parser soundness: the tokens an expression parse consumed, completed by closing parentheses that were missing at the end of the stream, derive exactly the tree it built in the layered grammar |
| ParserSound.ExpressionDerives | src/parse.c:83-346 | a parse that stops before the end of the stream consumed a string of the grammar for exactly its tree |
| ParserSound.ArgumentsSound | src/parse.c:361-376 | argument lists, with an optional trailing comma |
| ParserComplete.ExpressionReads | src/parse.c:340-346 | parser completeness: every string the grammar derives is read back to its tree and to the tokens after it |
| ParserComplete.BinaryReads | src/parse.c:145-315 | each of the ten levels, left-associative, ends where a looser operator or no operator follows |
| Grammar.InLevel | src/parse.c:145-315 | the ten levels with their operators, each as its own list, which the parser's table agrees with |
| ParserComplete.TwoOperators | src/parse.c:145-315 | precedence: of two operators between any three operands, the first is read as part of the left operand of the second if it is in the same or a tighter list, and otherwise the second as part of the right operand of the first |
| ParserComplete.ArgumentsRead | src/parse.c:361-376 | argument lists |
| ParserComplete.Unambiguous | src/parse.c:83-346 | no token string derives two expressions |
| StatementSound.StatementTook | src/parse.c:572-590 | statement soundness: what a statement parse consumed, completed by tokens missing at the end of the stream, derives its tree |
| StatementSound.StatementsTook | src/parse.c:470-474 | the same for the statements of a block |
| StatementSound.ConditionSound | src/parse.c:416-420 | conditions in parentheses |
| StatementSound.DeclarationSound | src/parse.c:637-666 | declarations with and without a value |
| StatementSound.EnumSound | src/parse.c:432-460 | enumerations |
| ProgramSound.AcceptedIsProgramIff | src/parse.c:668-680 | an accepted token string is a program, with the tree that was built, if and only if it is empty or ends with a closing brace and has as many opening as closing braces |
| ProgramSound.CutOffAccepted | src/parse.c:50-60 | since `expect` lets the end of the stream pass, the tokens `int f` alone are accepted as a function |
| ProgramSound.CutOffShows | src/parse.c:618-635 | a function with tokens missing never ends with a closing brace and matching braces |
| StatementComplete.ParsesIff | src/parse.c:668-680 | the parser, exactly: a token string with matching braces that ends with one is parsed to a tree if and only if the grammar derives that tree and each else is bound to the nearest if |
| StatementComplete.StatementNearest | src/parse.c:412-430 | every parsed statement binds each else to the nearest if |
| StatementComplete.StatementReads | src/parse.c:572-590 | statement completeness, unless an else follows that the statement would take |
| StatementComplete.FunctionReads | src/parse.c:618-635 | functions with their parameter lists |
| StatementComplete.ProgramReads | src/parse.c:668-680 | programs |
| Printer.ExpressionRoundTrip | src/parse.c:83-346 | printing an expression with minimal parentheses and parsing it with a remainder that does not continue it gives back the tree and the remainder |
| Printer.ShowDerives | src/parse.c:83-346 | what is printed at a level is a string of that level |
| Printer.FewestExpression | src/parse.c:83-346 | minimality: no string that the grammar derives for a tree is shorter than the printed one |
| Printer.FewestArgs | src/parse.c:361-376 | the same for argument lists |
| ProgramPrinter.StatementRoundTripIff | src/parse.c:412-590 | a printed statement is parsed back if and only if no else in it, or after it, is taken by an if other than its own |
| ProgramPrinter.ProgramRoundTripIff | src/parse.c:668-680 | a printed program is parsed back if and only if it has no dangling else |
| TokenStreamObject.TokenStream.Peek | src/parse.c:22-29 | lookahead, null beyond the end |
| TokenStreamObject.TokenStream.NextToken | src/parse.c:32-39 | advances unless at the end |
| TokenStreamObject.TokenStream.Expect | src/parse.c:53-69 | consumes a token of the kind, passes at the end, exits otherwise |
| TokenStreamObject.TokenStream.ParsePrimary | src/parse.c:83-110 | primary expressions: terminates with exactly the tree, and the cursor exactly at the rest, that the specification gives, or with an error when it does |
| TokenStreamObject.TokenStream.ParseUnary | src/parse.c:122-138 | `!` binds a primary: terminates with exactly the tree, and the cursor exactly at the rest, that the specification gives, or with an error when it does |
| TokenStreamObject.TokenStream.ParseBinary | src/parse.c:145-315 | the ten levels: terminates with exactly the tree, and the cursor exactly at the rest, that the specification gives, or with an error when it does |
| TokenStreamObject.TokenStream.ParseOperators | src/parse.c:150-157 | the loop over the operators of a level: terminates with exactly the tree, and the cursor exactly at the rest, that the specification gives, or with an error when it does |
| TokenStreamObject.TokenStream.ParseVarAsgn | src/parse.c:322-338 | right-nested assignments: terminates with exactly the tree, and the cursor exactly at the rest, that the specification gives, or with an error when it does |
| TokenStreamObject.TokenStream.ParseExpression | src/parse.c:340-346 | expressions: terminates with exactly the tree, and the cursor exactly at the rest, that the specification gives, or with an error when it does |
| TokenStreamObject.TokenStream.ParseFuncCall | src/parse.c:355-379 | calls: terminates with exactly the tree, and the cursor exactly at the rest, that the specification gives, or with an error when it does |
| TokenStreamObject.TokenStream.ParseArguments | src/parse.c:361-375 | the argument loop: terminates with exactly the tree, and the cursor exactly at the rest, that the specification gives, or with an error when it does |
| TokenStreamObject.TokenStream.ParseEnum | src/parse.c:432-460 | enumerations: terminates with exactly the tree, and the cursor exactly at the rest, that the specification gives, or with an error when it does |
| TokenStreamObject.TokenStream.ParseConstants | src/parse.c:443-455 | their loop: terminates with exactly the tree, and the cursor exactly at the rest, that the specification gives, or with an error when it does |
| TokenStreamObject.TokenStream.ParseWhile | src/parse.c:479-494 | while: terminates with exactly the tree, and the cursor exactly at the rest, that the specification gives, or with an error when it does |
| TokenStreamObject.TokenStream.ParseFor | src/parse.c:496-520 | for: terminates with exactly the tree, and the cursor exactly at the rest, that the specification gives, or with an error when it does |
| TokenStreamObject.TokenStream.ParseIfElse | src/parse.c:412-430 | if and else: terminates with exactly the tree, and the cursor exactly at the rest, that the specification gives, or with an error when it does |
| TokenStreamObject.TokenStream.ParseCompStmt | src/parse.c:462-477 | the loop over the statements of a block: terminates with exactly the tree, and the cursor exactly at the rest, that the specification gives, or with an error when it does |
| TokenStreamObject.TokenStream.ParseStatement | src/parse.c:572-590 | the choice of statement: terminates with exactly the tree, and the cursor exactly at the rest, that the specification gives, or with an error when it does |
| TokenStreamObject.TokenStream.ParseFuncParams | src/parse.c:592-616 | the parameter loop: terminates with exactly the tree, and the cursor exactly at the rest, that the specification gives, or with an error when it does |
| TokenStreamObject.TokenStream.ParseFuncDef | src/parse.c:618-635 | functions: terminates with exactly the tree, and the cursor exactly at the rest, that the specification gives, or with an error when it does |
| TokenStreamObject.TokenStream.ParseProg | src/parse.c:668-680 | the loop over functions, to the end of the stream: terminates with exactly the tree, and the cursor exactly at the rest, that the specification gives, or with an error when it does |
| LexicalGrammar.ScansIff | src/lex.c:48-237 | exactly which texts are read as which tokens, said without the lexer: a text without NUL is lexed to a list of tokens if and only if it consists of words, numbers and marks for these tokens, in order, with blanks and whole comments anywhere between them, where no word, number or mark could go on with the next character |
| LexicalGrammar.SeparatedScans | src/lex.c:48-237 | so token texts with any non-empty mix of blanks and comments after each are read as the tokens, unless a comment directly follows a division sign |
| Lexical.StuckIff | src/lex.c:301-314 | an iteration makes no progress if and only if it starts at a last character that is one of / & bar = ! < > |
| Lexical.ComesToAnEnd | src/lex.c:48-237 | the lexer comes to an end on every text that does not end with one of those characters |
| Lexical.LastCharacterIff | src/lex.c:48-237 | exactly which texts without NUL keep the lexer going forever, decided from the text without its last character: the last one is one of those characters, and either the text before it is lexed to its end, or that text would itself keep the lexer going and the last two characters are not one operator and do not start a comment |
| Lexical.LinesThen | src/lex.c:48-237 | after whole lines the following text is lexed as if it stood alone: no token and no comment crosses a line |
| LexicalRoundTrip.WrittenScans | src/lex.c:48-237 | lexer round trip: tokens written with one space after each are lexed back to the same kinds and texts |
| LexicalRoundTrip.LongestMatch | src/lex.c:107-199 | no longer token text starts where a token was read |
| LexicalRoundTrip.LiteralFits | src/util.c:207-212 | the buffer of a literal, sized by its digits, holds its number without leading zeros |
| FrontEnd.SourceRoundTripIff | src/lex.c:35-237 | text round trip: the text of a program tree is lexed and parsed back to it if and only if it has no dangling else |
| LexerObject.Lexer.NextChar | src/lex.c:307-314 | advances unless at the end |
| LexerObject.Lexer.TokenizeDigit | src/lex.c:240-260 | the digit loop accumulates the number of the longest digit string |
| LexerObject.Lexer.TokenizeIdent | src/lex.c:263-298 | the longest word, with its keyword |
| LexerObject.Lexer.SkipComment | src/lex.c:65-75 | a comment to the end of its line |
| LexerObject.Lexer.LexOperator | src/lex.c:65-199 | operators of one or two characters; at the end of the input the cursor steps back to before the operator |
| LexerObject.Lexer.Lex | src/lex.c:48-235 | one iteration does what the specification of a step says |
| LexerObject.Lexer.Tokenize | src/lex.c:35-237 | all tokens of a text on which the lexer comes to an end: those that the text spells |
| Decimal.ValueOfPrint | src/util.c:41-57 | reading back a printed number gives the number |
| Slots.DefinitionSlots | src/sema.c:20-26 | local slots are unique: the declarations of a function, across nested and sibling scopes, have exactly the slots 0, 4, …, size - 4, each once |
| Slots.StatementTakes | src/sema.c:217-387 | each statement's declarations take the slots between the frame's sizes before and after it, in order |
| Bindings.ProgramBound | src/sema.c:422-448 | in an accepted program names are distinct, frames are multiples of 4 with every used variable inside, and every call is to a function of the program with as many parameters as arguments |
| Bindings.StatementBound | src/sema.c:194-408 | a statement uses only slots inside the frame, and visible variables never share a slot |
| Acceptance.ProgramAcceptedIff | src/sema.c:422-448 | exactly which programs the semantic pass accepts, said of the syntax tree and the visible names: used names are visible variables, declared ones are not visible, calls are to functions seen so far with as many arguments as parameters, and types are known |
| Acceptance.FuncAcceptedIff | src/sema.c:261-294 | the same for a function, and the names that are visible after it |
| Acceptance.StmtAcceptedIff | src/sema.c:217-391 | the same for every kind of statement, in a frame of any size |
| Acceptance.ExprAcceptedIff | src/sema.c:254-332 | the same for expressions |
| NameMeaning.OperatorMeans | src/asm.c:437-573 | the operator table is right: for each of the seventeen tokens and every two words, the operator that the token is resolved to has the value that C99 gives to the token |
| NameMeaning.OperatorsAre | src/asm.c:437-573 | and exactly the tokens that have a value are operators |
| NameMeaning.MeaningSame | src/sema.c:194-408 | replacing names by slots preserves meaning: a function of a tidy program has the same value by lexically scoped names and by slots, in the same stack space, for both readings of if/else and the logical operators |
| NameMeaning.ExecSame | src/sema.c:217-391 | the same for statements, nested scopes and loops, with stores and slots related after every run |
| NameMeaning.EvalSame | src/sema.c:254-332 | and for expressions |
| NameMeaning.ParametersLeak | src/sema.c:272-280 | why a program must be tidy: parameters stay in the global scope, and a later function that uses one gets its own parameter in that place |
| TidyParts.TidyIff | src/sema.c:272-280 | the rules of scope hold of a statement without enumerations if and only if every statement inside it uses no other function's parameter and has no declaration as a branch or body |
| TidyParts.NewNamesIff | src/sema.c:340-348 | and those of an enumeration if and only if its constants are not visible and all different |
| Scoping.StatementKeeps | src/sema.c:219-225 | a tidy statement adds exactly the names it declares, and a block or `for` leaves the visible names as they were |
| ScopeObject.StackFrame.Add | src/sema.c:20-26 | hands out the next offset |
| ScopeObject.EnterScope | src/sema.c:28-34 | a scope with the same visible names in fresh tables, so nothing done to it reaches its parent |
| ScopeObject.ExitScope | src/sema.c:36-41 | back to the parent, still in order |
| ScopeObject.ScopeAdd | src/sema.c:43-46 | binds one name in this scope and changes no ancestor |
| ScopeObject.ScopeLookup | src/sema.c:48-63 | the walk up the parents finds what the innermost table alone says |
| ScopeObject.CheckExpression | src/sema.c:254-332 | resolves an expression as specified |
| ScopeObject.CheckStatement | src/sema.c:217-391 | resolves a statement as specified, with the scope and the frame size as specified after it |
| ScopeObject.CheckBlock | src/sema.c:219-225 | the statements of a block in a scope of its own; the enclosing scope is as it was |
| ScopeObject.CheckFor | src/sema.c:377-387 | a `for` in a scope of its own |
| ScopeObject.CheckIf | src/sema.c:226-233 | the then-branch before the condition |
| ScopeObject.CheckDefinition | src/sema.c:261-294 | parameters and name go to the global scope, then the body |
| ScopeObject.CheckProgram | src/sema.c:422-437 | the whole pass; it comes to its end without an error if and only if the program keeps the rules of acceptance |
| HashMapObject.Hash | src/hashmap.c:46-55 | the FNV-1a loop |
| HashMapObject.KnownHashes | src/hashmap.c:46-55 | with the published hashes of the empty string, "a" and "b" |
| HashMapObject.Masked | src/hashmap.c:107-112 | truncating the hash to an int changes nothing that the mask keeps |
| HashMapObject.BucketsUsed | src/hashmap.c:110-111 | a bucket is ever used if and only if its index is one of 16 of the 100, all below 100 |
| HashMapObject.Find | src/hashmap.c:59-71 | the data of a node with the key, or none if no node has it |
| HashMapObject.HashMap.Insert | src/hashmap.c:74-105 | overwrites the data of an equal key or links a new node at the end of the list; the map is updated at this key only |
| HashMapObject.HashMap.Overwrite | src/hashmap.c:92-97 | in-place update of one node |
| HashMapObject.HashMap.Append | src/hashmap.c:103-104 | a new last node |
| HashMapObject.HashMap.Add | src/hashmap.c:108-114 | the map is updated at the key, through hash, truncation and mask |
| HashMapObject.HashMap.Get | src/hashmap.c:117-123 | agrees with the map for every key |
| HashMapObject.HashMap.Clone | src/hashmap.c:137-152 | the same contents in fresh nodes, so later adds to either leave the other alone |
| ArenaObject.Arena.LiveDisjoint | include/mylang/arena.h:294-321 | all live allocations are inside their regions and pairwise disjoint |
| ArenaObject.Arena.Alloc | include/mylang/arena.h:294-321 | one new live block of as many words as hold the bytes, snapshots stay valid, and regions after `end` stay empty, so the internal assertions hold |
| ArenaObject.Arena.Advance | include/mylang/arena.h:306-308 | moving on past full regions keeps the arena in order and stops at a region with room or at the last one |
| ArenaObject.Arena.Realloc | include/mylang/arena.h:323-333 | the first bytes of the new block are those of the old one, and no live block changes |
| ArenaObject.CopyBytes | include/mylang/arena.h:329-331 | the copy loop |
| ArenaObject.Arena.Snapshot | include/mylang/arena.h:390-403 | a mark that can be returned to |
| ArenaObject.Arena.Reset | include/mylang/arena.h:405-412 | everything is free: the regions stay, and all of them are empty |
| ArenaObject.Arena.Rewind | include/mylang/arena.h:414-427 | exactly what was allocated since the snapshot is free again, and earlier snapshots stay valid |
| ArenaObject.Words | include/mylang/arena.h:296 | the least number of words that holds the bytes |
| VectorObject.Vector.constructor | src/util.c:88-101 | an empty vector with room for ten elements |
| VectorObject.Vector.Push | src/util.c:102-114 | adds one element at the end, through any growth, and leaves everything else that is live in the arena as it was |
| VectorObject.Vector.Get | src/util.c:126-134 | the element at an index, or an exit beyond the end |
| VectorObject.Vector.Grow | src/util.c:104-111 | moving to an array of twice the size keeps the elements in order |

## Left out

- Type checking (`type_check`), warnings, dumping of tokens and trees, file reading and argument parsing: they do not change the code that is emitted; all expressions are ints.
- Line and position of tokens, the texts that operator nodes keep, and the comments in the listing: none of them reaches the code.
- The texts of instructions: the listing is a sequence of instruction values; only the texts of labels are modelled.
- The assembler, the linker and the relaxation of distant branches: a label is where it is in the listing, and `LabelText` says when the texts of labels are distinct.
- Calls with more than eight arguments: the arguments beyond the eighth are never passed (a TODO in the source), so the guards exclude them.
- Limits.ParamAssignRun: the offset that is never set is a natural number; what the original makes of one that does not fit an int (section 6.3.1.3 of ISO C99) is not modelled.
- Reads of uninitialised variables, division by zero, oversized shifts (sections 6.5.5 and 6.5.7 of ISO C99): no defined result, hence no claim; signed overflow is taken to wrap.
- A variable's name bound to a function, and a call of something that is not a function: the original reads an unset field; the model treats both as errors.
- Entries that hold no offset: the value of the unset field is one parameter, the same for all entries.
- Resolve.Statement: resolved names are attached by building a resolved tree, not by writing a pointer into the nodes; whether a symbol was used is not recorded.
- TokenStreamObject.TokenStream.ParseBinary: the ten functions of the levels differ only in their operators and are one method with the level as a parameter.
- ScopeObject.CheckProgram: the table of type names is the predicate `KnownType`; `hashmap_free` has no counterpart, since nothing is used after it.
- HashMapObject.HashMap.Insert: a new node that turns out not to be needed is not freed.
- ArenaObject.Arena.Alloc: a new region never fails; `arena_free`, `arena_trim`, `arena_strdup` and formatted printing are not modelled, nor are the backends of the regions.
- LexerObject.Lexer.Tokenize: requires that the lexer comes to an end, since the original does not return otherwise; a literal that overflows an int and a comment without a last line feed, which leaves a token without a type, end it with the outcome `Undefined`.
- VectorObject.Vector.Push: strings, which are vectors of characters, are sequences elsewhere in the model.
- EndToEnd.CompilerCorrect: relates defined results only; for a source run without one nothing is said about the machine.
- Generator output is a sequence of instructions in place of a file.

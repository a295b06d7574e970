# Choice interpreter: verified model

A Dafny model of the compile, execute and cache pipeline of the Choice interpreter,
with proofs about it. `dafny verify dfyconfig.toml` checks the whole project. Paths
below are those of the interpreter's own repository.

The model follows the source file by file. Objects whose methods change their fields
(the one-pass compiler, the chunk under construction, the virtual machine, its cells and
call frames, the cache reader and writer, the disassembler, `stackvec`) are classes with
loops and in-place updates; each method is proved against a function, and theorems are
proved about those functions. Expressions, the optimizer and the size formulas are pure.

| part | modules | what it is about |
|---|---|---|
| compiler, bytecode, VM | `Syntax`, `Source`, `Values`, `Doubles`, `Words`, `Opcodes`, `Codegen`, `StmtCode`, `Machine`, `ExprCorrect`, `Scopes`, `StmtCorrect`, `ProgramCorrect`, `Chunk`, `Holes`, `Emission`, `StmtEmission`, `LoopEmission`, `Compiler`, `VirtualMachine`, `Interpreter` | a big-step semantics of the core language, the bytes emitted for it, the byte-level machine, and the imperative compiler with its jump holes: compiled scripts do what the source says |
| well-formed code | `Instructions`, `WellFormed`, `ForLoop`, `Labels`, `OpcodeOrder`, `CodeLaws`, `Disassembly` | instruction boundaries, jump targets, loop labels, opcode numbers, the choice of instructions, machine and disassembler |
| laws of the core language | `IntegerLaws`, `ValueLaws`, `ScopingLaws` | what operators, equality, indexing, names and labels mean, said without the functions that source semantics, machine and optimizer share |
| closures and calls | `Resolve`, `Closures`, `Cells`, `Calls`, `CallClosures` | lexical addresses, captured variables, frames, default and variadic arguments, the closure a function runs with |
| cache files | `CacheFormat`, `CacheReading`, `CacheRoundTrip`, `CacheFile`, `ObjectTypes`, `CacheLayout`, `CacheWriter`, `CodeReader` | the recursive binary format, its size headers, three modes of debug information, and the place of every byte |
| optimizer | `Optimizer` | constant folding and dropping branches keep the meaning and leave nothing to fold |
| mutability | `Flags`, `Mutability`, `ElementLaws` | the flags of handles, lists that can never change again, and which element iteration, indexing and unpacking deliver |
| arithmetic | `Arithmetic`, `Swar`, `IntLiteral`, `Limbs`, `Ranges`, `EscapeSeq`, `DigitLaws` | literals with wrap-around, limb products, ranges, UTF-8 escapes |

How the pieces of the first part fit: `Compiler.Compile` is shown to produce the chunk
`ProgramCorrect.Script`; `VirtualMachine.Run` is shown to take `Machine.Step`s;
`ProgramCorrect.ScriptStops` connects the two with the source semantics, and
`Interpreter.RunScript` states the result for the imperative code end to end. What the
shared functions below all of them compute is stated once more, on its own, in the laws.

## Where the code does not do what it is for

The model keeps the code as it is. Where a property fails, one lemma gives an input and
another says exactly when it holds.

- `~=` is emitted with two operands for an opcode that takes one
  (`Disassembly.ComplementAssignBroken`, for all registers).
- A function that ends without `return` overwrites register 0 while closures may still
  share it: a captured first parameter is lost, any other variable is not (`Calls.EndOfBody`).
- A `return` inside a block leaves the entry of that block in `scopeStarts`; the caller's
  next block exit uses it and leaves its own captured variables open. Input
  `Calls.ScopeLeftBehind`; exactly `Calls.ScopesBalanced` and `Calls.NextExit`.
- The argument count for variadic parameters is one field for all calls; a default value
  that makes a call overwrites it. Input `Calls.StaleArgCount`; exactly
  `Calls.VariadicAfterDefaults`.
- Constant conditions that are not folded count as false, `and`/`or` of constants fold to
  Booleans, and loops are unrolled without looking below the top level of their body.
  Inputs `Optimizer.SumAsCondition`, `LogicOfNumbers`, `NestedBreak`; exactly
  `UnfoldedCondition`, `UnfoldedIf`, `UnfoldedWhile`, `LogicExact`, `UnrollExact`.
- `!=` and `not in` between literals have no case in the folder. Input
  `Optimizer.InequalityOfLiterals`; exactly `ReachesExact`.
- `Int(text, base)` takes some texts that are out of range for the number they wrap to.
  Inputs `IntLiteral.NegativeOctal`, `IntLiteral.QuinaryWraps`; exactly `IntLiteral.RangeTests`,
  and by base `IntLiteral.ExactBases`. Literals are not affected.
- Literals of more than 255 characters are cut, also their separators. Inputs
  `IntLiteral.LongLiteral`, `CutAtSeparator`, `CutBehindOne`; exactly `IntLiteral.LongExact` for
  well-placed separators and `IntLiteral.LongMisplaced` for others.
- A loop nested in one of the same label removes the label of both, and the outer one follows
  a null pointer. Input `Labels.NestedLabel`; exactly `Labels.FoundExact`.
- Ranges: `getIndex` does not refuse index 1 of a range with equal bounds and a step that is
  not positive (`Ranges.OnePastTheEnd`; exactly `Ranges.IndexExact`), and large indices wrap
  around (`Ranges.WrappedIndex`; exactly `Ranges.IndexAlways`, `Ranges.OperatorIndex`).
  `a..<b` contains its stop exactly when `a` is not below `b` (`Ranges.ExclusiveExact`).
- `>>` of a negative number moves the sign bit with the others and corrects it for a distance
  of one only. Input `IntegerLaws.NegativeShift`; exactly `IntegerLaws.ShiftRightLaw`.
- Integers are compared as doubles. Inputs `Values.LargeComparisons`, `Doubles.LessWithoutEqual`;
  exactly `Doubles.EqualExact`, `Doubles.OrderExact` and `Doubles.LessExact`.

## Model

| member | source | states |
|---|---|---|
| `Interpreter.RunScript` | src/compiler.cpp:2401-2426 | compiling a script and running at most any number of instructions of its bytes: it is rejected exactly when it is ill scoped; otherwise the machine is still running, or it has stopped as the source semantics does, with the same error or the same variables |
| `Interpreter.NeverStuck` | src/vm.cpp:1110-1380 | a compiled script never gets the machine into a case the source leaves undefined: no unknown opcode, no read past the chunk or the pool, no list extension of a value that is no list |
| `ProgramCorrect.ScriptStops` | src/vm.cpp:1887-1905 | whenever the machine stops on a compiled script, the source semantics ends too: HALT with the final value of every variable in its register, or the same runtime error |
| `ProgramCorrect.ScriptTerminates` | src/vm.cpp:1887-1905 | the machine stops on a compiled script if and only if the source semantics does |
| `ProgramCorrect.ScriptRuns` | src/compiler.cpp:2401-2426 | for every bound on loop rounds: the source answers and the machine ends the same way, or the machine is still running after that many instructions |
| `ExprCorrect.ExprSim` | src/compiler.cpp:1660-1899 | running the bytes of an expression from the first: the end is reached with the value in the register that was `nextReg`, registers below change only as the expression assigns variables, and the machine raises an error exactly when evaluation does |
| `ExprCorrect.SimShortCircuit` | src/compiler.cpp:1660-1678 | `and`/`or`: the right operand is skipped exactly when the left one decides, and the result is the operand itself |
| `ExprCorrect.SimIf` | src/compiler.cpp:1968-1981 | conditional expressions run exactly the chosen branch, both leaving their value in the same register |
| `ExprCorrect.SimList` | src/compiler.cpp:1993-2015 | list literals of any length come out complete and in order although the entries are appended in groups of 50 |
| `ExprCorrect.BinaryAgrees` | src/compiler.cpp:1680-1780 | every binary operator means the opcode it is compiled to, followed by NOT for `!=`, `<=`, `>=` and `not in` |
| `ExprCorrect.SimCrement` | src/compiler.cpp:1782-1809 | `++` and `--` on variables: prefix and postfix forms deliver the right one of old and new value and store the new one |
| `ExprCorrect.LoadDecodes` | src/compiler.cpp:2262-2354 | literals: the operand decoder reads back the value that was loaded, as an immediate or through a one-, two- or four-byte pool index, and consumes exactly the operand |
| `StmtCorrect.StmtSim` | src/compiler.cpp:1085-1145 | statements: normal completion is the byte behind the statement, `break` and `continue`, plain or labelled, arrive at the exit or the next test of the loop they name, errors are those of the source, and an endless loop keeps the machine busy |
| `StmtCorrect.SimWhile` | src/compiler.cpp:1102-1145 | `while` with its else clause: the clause runs exactly when the condition fails, not after `break` |
| `StmtCorrect.SimRepeat` | src/compiler.cpp:1296-1337 | `repeat ... until`: `continue` goes to the test, `break` behind it |
| `StmtCorrect.SimAll` | src/compiler.cpp:1399-1406 | statement lists: execution goes on behind each statement and stops at the first jump or error |
| `StmtCorrect.NoJumpEscapes` | src/compiler.cpp:1351-1377 | a statement that contains no jump to a loop never ends with one |
| `Scopes.AfterOk` | src/compiler.cpp:308-325 | after any statement, with any nesting of blocks and loops, all visible variables have distinct registers below `nextReg`, although one field is all that popScope restores it from |
| `Scopes.DeclareOk` | src/compiler.cpp:612-697 | a declaration gives every new variable a register of its own and leaves those of the others alone |
| `Chunk.ByteCode.AddJump` | src/bytecode.cpp:74-84 | appends the jump with a two-byte hole and returns where the hole is |
| `Chunk.ByteCode.PatchJump` | src/bytecode.cpp:86-100 | fills one hole with its distance from the end of the chunk, big endian, and changes nothing else; a distance over 65535 leaves the zeros |
| `Chunk.ByteCode.AddLoop` | src/bytecode.cpp:102-116 | appends the backward jump whose distance counts its own three bytes |
| `Chunk.ByteCode.LoadRegConst` | src/bytecode.cpp:123-155 | small integers become immediate operands, any other constant one new pool entry with an index of the shortest form |
| `Holes.FillHoles` | src/bytecode.cpp:86-100 | patching all recorded holes of a statement for one target, in whatever code it stands, gives the bytes in which those jumps have their final distances |
| `Holes.HolesInside` | src/compiler.cpp:1351-1377 | every recorded hole lies inside the statement that made it |
| `Compiler.Compiler.ResolveVariable` | src/compiler.cpp:207-222 | the search from the innermost scope outwards finds the visible variable of that name: its register, whether it may be assigned, and whether it is a global |
| `Compiler.Compiler.CompileExpr` | src/compiler.cpp:1583-2354 | one pass over an expression appends exactly the bytes and constants its meaning is proved for, takes one register, and reports an error exactly for undeclared names and assignments to fixed variables |
| `Compiler.Compiler.CompileLogic` | src/compiler.cpp:1660-1678 | the hole left before the right operand of `and`/`or` is patched to jump over exactly that operand |
| `Compiler.Compiler.CompileIfExpr` | src/compiler.cpp:1968-1981 | both holes of a conditional expression are patched to the right places and the branches share one result register |
| `Compiler.Compiler.CompileList` | src/compiler.cpp:1993-2015 | the loop over the entries of a list literal emits an append for every full group and for the rest |
| `Compiler.Compiler.CompileCompound` | src/compiler.cpp:1477-1494 | compound assignment to a variable: fetch, operate, store, and move the new value to the result register |
| `Compiler.Compiler.CompoundAssignToVar` | src/compiler.cpp:1477-1494 | the row of instructions of any compound assignment to a variable, whatever the opcode: fetch into the next register, the opcode with two operands, store, move |
| `Compiler.Compiler.CompileCrement` | src/compiler.cpp:1782-1809 | `++`/`--`: fetch twice, change the copy, store it, and keep the old or the new value |
| `Compiler.Compiler.CompileStmt` | src/compiler.cpp:2356-2393 | one pass over a statement appends its bytes, leaves its jumps to enclosing loops as recorded holes, and reports an error exactly when it is ill scoped |
| `Compiler.Compiler.CompileIf` | src/compiler.cpp:1085-1100 | the false jump is patched behind the true branch, or behind the jump over the else branch |
| `Compiler.Compiler.CompileWhile` | src/compiler.cpp:1102-1145 | after all patching the loop consists of test, body, backward jump and else clause with every plain and labelled jump of the body resolved, and the vectors and labels of the enclosing loop are restored |
| `Compiler.Compiler.CompileRepeat` | src/compiler.cpp:1296-1337 | the same for `repeat`, whose continue jumps are patched before the test and whose break jumps behind it |
| `Compiler.Compiler.CompileJump` | src/compiler.cpp:1351-1377 | `break` and `continue` record one hole in the innermost vector or under their label; an unknown label is an error |
| `Compiler.Compiler.CompileBlock` | src/compiler.cpp:1399-1406 | blocks: the names declared inside disappear and `nextReg` goes back |
| `Compiler.Compiler.CompileVarDecl` | src/compiler.cpp:649-697 | declarations bind the names, in order, to successive registers that hold the values of the initialisers or null, with the flag instruction behind |
| `Compiler.Compiler.DefineNames` | src/compiler.cpp:612-647 | a name declared twice in one scope is reported; otherwise each name is bound to the register of its value |
| `Compiler.Compiler.PopScope` | src/compiler.cpp:316-325 | exactly the names of the innermost scope are removed from the table |
| `Compiler.Compiler.PatchLabelJumps` | src/compiler.cpp:479-498 | all holes under a label are patched; the label goes out of use with its breaks |
| `Labels.FoundExact` | src/compiler.cpp:479-498 | for every statement: each loop finds the entries of its label when it patches, of which it follows the pointers untested, if and only if no loop is nested in one with the same label |
| `Labels.TableLoses` | src/compiler.cpp:479-498 | a statement takes the labels of its loops out of the table, also those an enclosing loop had put in |
| `Labels.FragmentFound` | src/compiler.cpp:1102-1145 | in the statements the compiler is proved for every lookup finds its entry |
| `Labels.NestedLabel` | src/compiler.cpp:1102-1145 | an input: two nested loops of the same label, which are accepted |
| `Compiler.Compiler.Compile` | src/compiler.cpp:2401-2426 | a whole program: the chunk is empty exactly when an error was reported, and otherwise the script whose runs are described above |
| `VirtualMachine.VirtualMachine.LoadOper` | src/vm.cpp:313-328 | operand decoding advances `ip` by exactly the operand and yields the constant |
| `VirtualMachine.VirtualMachine.CompareOper` | src/vm.cpp:397-416 | comparison of the first operand with the register named by the next byte, `in` by searching the list |
| `VirtualMachine.VirtualMachine.ExecuteOp` | src/vm.cpp:1160-1400 | one dispatched instruction changes `ip`, the registers, the scope starts and the status exactly as the step function does |
| `VirtualMachine.VirtualMachine.Run` | src/vm.cpp:1887-1905 | the dispatch loop goes through consecutive states of the step function |
| `Values.SmallComparisons` | src/object.cpp:141-144 | integers up to 2^53 are compared as integers although both sides are converted to doubles |
| `Values.LargeComparisons` | include/object.h:393 | 2^53 and 2^53 + 1 compare equal: an input at which different integers are taken for the same |
| `Doubles.EqualExact` | src/object.cpp:141-144 | when the detour over doubles is harmless: an integer compares equal to itself alone if and only if its magnitude is below 2^53, or below 2^54 and twice an odd number |
| `Doubles.BeyondTheBound` | src/object.cpp:141-144 | 2^53 + 2, although beyond 2^53, compares equal to itself alone |
| `Doubles.OrderExact` | src/object.cpp:176-204 | `<` and `>` with all other integers are right if and only if equality is |
| `Doubles.DoubleMonotone` | src/object.cpp:176-204 | the detour over doubles never turns an order around |
| `Doubles.LessExact` | src/object.cpp:176-204 | `<` alone is right for all integers on its right if and only if it is for the next one |
| `Doubles.LessWithoutEqual` | src/object.cpp:176-204 | so it is for 2^53 + 1, where equality is not |
| `IntegerLaws.ArithmeticLaw` | src/vm.cpp:343-359 | sums, differences, products and negation: the result is the one 64-bit integer that is right up to multiples of 2^64 |
| `IntegerLaws.DivisionLaw` | src/vm.cpp:362-366 | dividend = quotient x divisor + remainder, with a remainder smaller than the divisor that has the sign of the dividend |
| `IntegerLaws.RemainderLaw` | src/vm.cpp:362-366 | `%` gives the only number with these properties, and is an error for zero |
| `IntegerLaws.BitwiseLaw` | src/vm.cpp:418-433 | `&`, `|`, `^` and `~`: the result is the one integer each of whose 64 bits is the combination of those of the operands |
| `IntegerLaws.ShiftLeftLaw` | src/vm.cpp:434-438 | shifting to the left multiplies by a power of two, up to multiples of 2^64; other distances than 0 to 63 are errors |
| `IntegerLaws.ShiftRightLaw` | src/vm.cpp:439-445 | shifting to the right divides by a power of two if the number is not negative; a negative one gives the rounded quotient if and only if the distance is 1, and the exact result is stated for all others |
| `IntegerLaws.NegativeShift` | src/vm.cpp:439-445 | an input: `-8 >> 2` is -2 - 2^62 |
| `ValueLaws.EqualLaw` | src/object.cpp:141-172 | for every value, nested lists included: it is `==` to itself alone if and only if all integers in it are, as above, and it holds no moved-from register |
| `ValueLaws.EqualLists` | src/object.cpp:1212-1223 | lists are equal exactly when they have the same length and equal entries in each place |
| `ValueLaws.ContainsLaw` | src/object.cpp:1266-1269 | `in` and `not in` are membership, for such values |
| `ValueLaws.TruthyLaw` | src/object.cpp:229-245 | exactly zero, false, null, void and the empty list count as false |
| `ValueLaws.OrderLaw` | src/object.cpp:174-190 | the four comparisons of integers up to 2^53 are those of whole numbers |
| `ValueLaws.ErrorLaw` | src/vm.cpp:343-480 | for all operators and operands: which operations are errors, and which errors |
| `ValueLaws.EntryLaw` | src/compiler.cpp:1993-2015 | entry `k` of a list literal is evaluated in the scopes that the entries before it left behind |
| `ValueLaws.IndexLaw` | src/object.cpp:1226-1244 | `[e0, e1, ...][k]` is the value of entry `k`, and an error exactly when there is no such entry |
| `ValueLaws.IndexErrors` | src/object.cpp:1226-1244 | only lists can be indexed, and only by integers |
| `ValueLaws.UpdateLaw` | src/compiler.cpp:1417-1475 | an assignment changes what one name stands for, its innermost declaration, and nothing else |
| `ValueLaws.DeclareLaw` | src/compiler.cpp:649-697 | after a declaration of several names each stands for the value of its own expression, or for null |
| `ValueLaws.CrementLaw` | src/compiler.cpp:1782-1809 | `++` and `--` step the variable by one and give the new value in front of the name and the old one behind it |
| `ScopingLaws.NameRules` | src/compiler.cpp:1417-1429 | a name may be used exactly where a scope declares it, and assigned exactly where the innermost such declaration is not fixed |
| `ScopingLaws.DeclareRules` | src/compiler.cpp:612-647 | after a declaration its names stand for it, assignable unless fixed, and all others for what they stood for |
| `ScopingLaws.RedeclareRules` | src/compiler.cpp:630-640 | a scope takes every name once, an inner scope may declare it again |
| `ScopingLaws.LabelRules` | src/compiler.cpp:1351-1377 | labelled jumps are accepted exactly inside a loop of that label |
| `ScopingLaws.BlockRules` | src/compiler.cpp:1399-1406 | what a block declares is not in scope behind it |
| `OpcodeOrder.Numbering` | include/opcodes.h:11-157 | the opcodes, in the order of the enumeration, are numbered from 0 without gaps |
| `CodeLaws.ReadAgrees` | src/compiler.cpp:93-113 | a declared variable is read from its register with GET_GLOBAL or GET_LOCAL according to the kind of address name resolution gives it, in scripts and in functions |
| `CodeLaws.AssignAgrees` | src/compiler.cpp:93-113 | and assigned with SET_GLOBAL or SET_LOCAL |
| `CodeLaws.ImmediateExact` | src/bytecode.cpp:123-155 | exactly the integers with an operand code of their own, -2 to 2, are loaded by it and stay out of the pool |
| `CodeLaws.OperandExact` | src/bytecode.cpp:123-155 | a pool index takes one, two or four bytes, the fewest that hold it, most significant first |
| `CodeLaws.DistanceExact` | src/bytecode.cpp:86-100 | the two bytes of a jump are its distance, most significant first |
| `CodeLaws.FullGroup` | src/compiler.cpp:1993-2015 | the first 50 entries of a longer list literal, evaluated into successive registers, are appended before the others |
| `CodeLaws.LastGroup` | src/compiler.cpp:1993-2015 | fewer than 50 are appended together at the end |
| `WellFormed.StmtPiece` | src/compiler.cpp:1085-1145 | the bytes of a statement are whole instructions; each of its jumps lands on the beginning of one of them, on their end, or on the place an enclosing loop provides |
| `WellFormed.ExprPiece` | src/compiler.cpp:1660-1899 | the bytes of an expression are whole instructions and no jump leaves them |
| `Instructions.Join` | src/bytecode.cpp:74-116 | two well-formed pieces of code joined are well formed when the jumps of each land on instruction boundaries of the other |
| `Disassembly.ScriptWellFormed` | src/compiler.cpp:2401-2426 | the chunk of a script within the limits is a row of whole instructions, and all its jumps land on boundaries or its end |
| `ForLoop.ForPiece` | src/compiler.cpp:1147-1191 | `for` loops, with or without `where` clause, unpacking and else clause: given well-formed parts the code is whole instructions, all jumps land on boundaries or on the places enclosing loops provide, and the instruction that updates the iterator jumps to the start of the first round |
| `ForLoop.ForStmtPiece` | src/compiler.cpp:1202-1234 | the same for the statement with the scope around it |
| `Disassembly.StepOnBoundary` | src/vm.cpp:1178-1221 | in a well-formed chunk no instruction, taken or not, moves `ip` into the middle of another |
| `Disassembly.StepAdvances` | src/vm.cpp:1160-1373 | every instruction moves `ip` by its length or to its jump target |
| `Disassembly.SameOperands` | src/disasm.cpp:350-421 | for every opcode the disassembler reads as many operand bytes as the virtual machine does |
| `CallClosures.CallOperands` | src/vm.cpp:1646-1714 | the instructions of functions, cells and globals, as executed, read as many bytes as the disassembler prints |
| `Disassembly.Disassembler.DisassembleOp` | src/disasm.cpp:133-164 | printing one instruction advances by exactly its length, including the operand of LOAD_REG |
| `Disassembly.Disassembler.DisassembleCode` | src/disasm.cpp:423-445 | the sweep prints the instructions of a well-formed chunk one after the other and ends with it |
| `Disassembly.SweepVisits` | src/disasm.cpp:423-445 | the sweep stops at exactly the instruction boundaries |
| `Disassembly.RunOnLines` | src/disasm.cpp:423-445 | whatever instruction a run of a compiled script is about to execute, the sweep has printed a line for it |
| `Disassembly.ComplementAssignBroken` | src/compiler.cpp:1437-1494 | `~=` is emitted with two operands for an opcode that reads one: for every variable and every register of the value, the store that follows is an instruction of its own if and only if the number of that register is an opcode without operands |
| `Resolve.ResolveSound` | src/compiler.cpp:207-255 | for any nesting of functions: a name gets an address exactly when searching the enclosing scopes finds it, the address stands for that variable, and only captures are added |
| `Resolve.KindExact` | src/compiler.cpp:207-262 | which kind of address a name gets: global exactly for variables of the outermost scope of the script, from inside functions only outside of modules; local exactly for the other variables of the function itself; a cell for everything else |
| `Resolve.ResolveTwice` | src/compiler.cpp:257-272 | resolving a name again gives the same address and captures nothing more |
| `Resolve.GrownDenotes` | src/compiler.cpp:257-272 | addresses keep their meaning while later code captures more variables and declares or leaves others |
| `Resolve.RunKeeps` | src/compiler.cpp:207-272 | over any run of declarations, scope changes, resolved names and nested functions: every capture stands for the variable its name meant, and the captures of a function still being compiled only get more |
| `Resolve.CaptureOnce` | src/compiler.cpp:257-272 | the capture list holds each captured name once |
| `Resolve.FunctionCompiler.ResolveVariable` | src/compiler.cpp:207-255 | the chain of compiler objects computes those addresses, updating the capture lists on the way |
| `Resolve.FunctionCompiler.FindLocal` | src/compiler.cpp:209-222 | the loop over the scopes of one function finds the innermost with the name |
| `Closures.AddressingAgrees` | src/compiler.cpp:784-814 | a name resolved at any point of a function: once all functions are compiled, its address, followed through the capture lists, leads to the variable that naive search found at that point |
| `Closures.ReachDenotes` | src/compiler.cpp:784-814 | following an address through the capture lists of the enclosing functions, activation by activation, reaches the variable the address stands for |
| `Closures.CaptureOne` | src/vm.cpp:1698-1714 | one capture instruction: the cell it delivers, found or new, shares the box of the captured variable |
| `Closures.MakeClosure` | src/vm.cpp:1691-1714 | CLOSURE and the captures behind it: in an activation whose own cells share the boxes of the variables its captures stand for, the new closure gets cells that share those of its captures, and no existing cell changes its box |
| `Closures.WiredLater` | src/vm.cpp:1691-1714 | an activation keeps this property whatever is read, written, captured or closed meanwhile |
| `Closures.GetVariable` | src/vm.cpp:1235-1274 | GET_LOCAL, GET_GLOBAL and GET_CELL read the content of the variable the address reaches |
| `Closures.SetVariable` | src/vm.cpp:1247-1298 | SET_LOCAL, SET_GLOBAL and SET_CELL change that variable and no other |
| `Closures.UseLater` | src/vm.cpp:1267-1278 | a name resolved in a function and read by an activation after any sequence of reads, writes, captures and scope exits: the value is the content of the variable that naive search found, also when its scope has been left |
| `Cells.CellStore.CaptureValue` | src/vm.cpp:213-236 | the cell of a variable is the one it already has, found or not found by the backward search, or else a new one; the list stays sorted with one cell per register |
| `Cells.CellStore.LowerBound` | src/vm.cpp:228-236 | the insertion point of the new cell keeps the list sorted |
| `Cells.CellStore.CloseCells` | src/vm.cpp:238-250 | exactly the cells at or above the limit are closed, each with the last value of its variable |
| `Cells.CellStore.PopCells` | src/vm.cpp:238-250 | the backward loop stops at the first cell below the limit and has closed all others |
| `Cells.CellStore.Run` | src/object.cpp:1353-1357 | over any sequence of reads, writes, captures and scope exits, code sees what it would see if every variable were a box shared with its closures, before and after the scope closes, and no cell changes its box |
| `Calls.CallTransparent` | src/vm.cpp:509-588 | for any callee and everything it calls in turn: when the call is over, the caller goes on behind it with its own chunk, closure and window, the returned value is in the register before the arguments, and registers below have changed only where a global or a captured variable was assigned |
| `Calls.ParametersAtEntry` | src/vm.cpp:550-571 | when the body starts, the arguments are in the first registers and each missing parameter holds its default, evaluated in the order of declaration with the parameters before it in place; the frame is that of the call, the window starts at the arguments, and the closure is the object that was called, or none for a plain function |
| `Calls.DefaultsInOrder` | src/compiler.cpp:699-748 | the default chunks run one after the other, each once, and return to the callee's window and closure whatever they call; their values stay where they were delivered, given that no default assigns a parameter before its own |
| `Calls.ArityExact` | src/vm.cpp:519-548 | the three tests together refuse a call exactly when there are fewer arguments than required or, without a variadic parameter, more than allowed |
| `Calls.CallOutcome` | src/vm.cpp:609-654 | a call instruction makes a call if and only if a function is called with as many arguments as it takes and there is room for a frame; otherwise registers and frames stay and the error is the right one |
| `Calls.DepthLimit` | src/vm.cpp:616-629 | at the depth limit the call is dropped, an invalid value takes the place of the result, and the caller goes on |
| `Calls.StepMoves` | src/vm.cpp:1110-1700 | every instruction stays in its function, enters a callee, or goes back to the caller; registers below the window change only through globals and cells, or by the returned value |
| `CallClosures.RunsWithOwn` | src/vm.cpp:636-640 | from its entry on, again after every call it makes and while its frame waits for one, a function runs with its own window and with its own closure: the object that was called |
| `CallClosures.BodyReads` | src/vm.cpp:1267-1277 | whenever the function itself executes GET_CELL `i`, it gets what is behind cell `i` of the closure that was called, and nothing else changes |
| `CallClosures.BodyWrites` | src/vm.cpp:1279-1298 | whenever it executes SET_CELL `i`, all cells that share the variable show the new value and no other cell changes |
| `CallClosures.SetCellLaw` | src/vm.cpp:1279-1298 | one SET_CELL: every cell and every register afterwards |
| `CallClosures.GlobalBack` | src/vm.cpp:1235-1265 | what one function assigns to a global variable is what another one reads, whatever their windows |
| `CallClosures.ClosureLaw` | src/vm.cpp:1691-1697 | CLOSURE makes a new closure without cells of the function, and leaves the function as it was |
| `CallClosures.CaptureLaw` | src/vm.cpp:1698-1706 | CAPTURE_LOCAL and CAPTURE_GLOBAL add one cell to the closure, open at the register of the variable in the window of the function or of the script |
| `CallClosures.CaptureShares` | src/vm.cpp:213-224 | a variable that has an open cell gets no second one |
| `CallClosures.CaptureCellLaw` | src/vm.cpp:1707-1714 | CAPTURE_CELL adds a cell of the closure that runs |
| `CallClosures.AfterOlder` | src/vm.cpp:1691-1714 | over any run closures keep their function and the cells they have |
| `Calls.VariadicSurplus` | src/vm.cpp:1675-1689 | when no default was needed, a variadic parameter receives exactly the surplus arguments in order |
| `Calls.ArgsKept` | src/vm.cpp:1646-1656 | the argument count on record is the callee's as long as no further call is made |
| `Calls.VariadicAfterDefaults` | src/vm.cpp:1675-1689 | for the whole call, whatever ran in between: the variadic list is empty if and only if the last call instruction executed since, the call itself included, had at most as many arguments as there are other parameters |
| `Calls.ArgsLast` | src/vm.cpp:1646-1656 | the count on record is that of the last call instruction executed, by whatever function |
| `Calls.StaleArgCount` | src/vm.cpp:1675-1689 | `func f(x = g(1, 2), rest...) {}` as the compiler emits it, called without arguments: one register of the call of `g` ends up in the list |
| `Calls.ReturnCloses` | src/vm.cpp:1658-1669 | a return closes the cells of the callee with the last values of their variables, except for the register that was moved out, and leaves those of callers open |
| `Calls.EndOfBody` | src/compiler.cpp:760-762 | a function that ends without `return`: a captured variable survives if and only if it is not in register 0, the register of the first parameter |
| `Calls.ScopeLeftBehind` | src/vm.cpp:1658-1669 | an input, as the compiler emits it: `func h(...) { return }` called at the end of a block of the caller leaves the scope of its body behind, and the caller's block exit then leaves its own captured variables open |
| `Calls.ScopesBalanced` | src/vm.cpp:1827-1837 | for any call that ends: the caller's scopes are as before if and only if the callee left exactly the scopes it entered, none that it had not entered and at the end all of them |
| `Calls.NextExit` | src/vm.cpp:1832-1837 | at any later state of the caller that stands at a block exit with the scopes it had when the callee returned: the exit closes the cells of the caller's own block if the callee left all scopes it entered, and otherwise none of them |
| `Calls.ScopesKept` | src/vm.cpp:1827-1837 | code that leaves exactly the scopes it enters, none too early, keeps those there were |
| `Calls.CallVM.CheckFuncArgs` | src/vm.cpp:519-548 | the tests in their order accept exactly the argument counts between the bounds |
| `Calls.CallVM.CallUserFunc` | src/vm.cpp:609-654 | entering a function: the depth limit, an arity error, or a new frame that remembers the caller, with the window at the arguments and the closure that was called as the current one |
| `Calls.CallVM.CallDef` | src/vm.cpp:1646-1656 | the call instruction in place: argument count on record, callee looked up, function entered or the call refused |
| `Calls.CallVM.ReturnValue` | src/vm.cpp:1658-1669 | moving the result, closing cells and restoring the caller, in place |
| `Calls.CallVM.CollectArgs` | src/vm.cpp:1675-1689 | the loop that gathers the variadic arguments |
| `CacheFile.FileBack` | src/bytes.cpp:253-330 | reading a written cache file gives the file back to the last byte, with functions nested to any depth in pools and default arguments; without debug information all but that; with separate debug information every block is used exactly once |
| `CacheLayout.FileLayout` | src/bytecode.cpp:236-276 | a file is the cache file of a program if and only if it is laid out like this: the letters of `choice`, version 0.0.1, the debug mode, the file name; then line markers; then the chunk, with every size, length, flag and number at its place |
| `CacheLayout.DebugLayout` | src/bytecode.cpp:278-298 | the same for the debug file: line markers, then for every chunk the blocks of the functions in its pool, bodies before default arguments, and its own |
| `CacheLayout.ChunkLies` | src/bytecode.cpp:253-298 | the layout of a chunk: code size, size of the pool in bytes, code, pool, ranges |
| `CacheLayout.ConstLies` | src/object.cpp:481-497 | the layout of every kind of constant, functions with the chunks of their default arguments included; it begins with the number of its type |
| `CacheLayout.TypeByteExact` | include/object.h:44-68 | the type byte of a constant is the number of its type in the order of TYPE_LIST, and no other byte is |
| `CacheLayout.FlagsNumber` | include/object.h:44-81 | the type numbers in handles are those of the same list |
| `CacheLayout.ReadsKind` | src/bytes.cpp:225-246 | reading: the type byte decides which kind of constant is read, functions being told from lambdas by their name, and any type not written is refused with that byte |
| `CacheLayout.SkipsKind` | src/bytes.cpp:236-244 | Booleans and null are skipped with the byte behind them |
| `CacheLayout.LongLies` | include/bytes.h:12-32 | the eight bytes of a number, negative ones in two's complement, most significant first |
| `CacheRoundTrip.ChunkBack` | src/bytes.cpp:106-121 | wherever the bytes of a chunk stand and whatever follows them, reading gives the same chunk, stops behind it, and draws exactly its own debug blocks |
| `CacheRoundTrip.PoolBack` | src/bytes.cpp:218-251 | the pool ends where its byte size says and every constant comes back in order |
| `CacheRoundTrip.ConstBack` | src/bytes.cpp:133-216 | every kind of constant is read back by its type byte |
| `CacheRoundTrip.FuncBack` | src/bytes.cpp:156-188 | functions: name or none, arities, flags, body and one default chunk for each optional parameter |
| `CacheRoundTrip.DebugBack` | src/bytes.cpp:284-296 | combined, separate or absent debug information is found where the mode says |
| `CacheRoundTrip.NextSplit` | src/bytecode.cpp:278-298 | the separate blocks of two neighbours are drawn one after the other |
| `CacheFile.BlocksBack` | src/bytes.cpp:393-406 | the debug file is read back block by block up to its end |
| `CacheFile.SameBytesSameChunk` | src/bytecode.cpp:253-298 | chunks with the same bytes are the same chunk |
| `CacheFile.SkipAsFarAsRead` | src/bytes.cpp:773-830 | skipping a function moves the cursor exactly as far as reading it would |
| `CacheFormat.PoolSizeExact` | src/bytecode.cpp:157-203 | countPool is the number of bytes the pool takes, in all debug modes |
| `CacheFormat.ConstSizeExact` | src/object.cpp:880-904 | byteSize of a constant is the number of bytes emit writes, type byte included |
| `CacheFormat.ChunkSizeExact` | src/object.cpp:535-546 | the sizes of chunk data and of metadata add up to the bytes written, in combined and other modes |
| `CacheFormat.FromBigEndian` | include/bytes.h:12-24 | the big-endian bytes of a number read back as that number |
| `CacheWriter.EncodeMemValue` | include/bytes.h:12-24 | the shift-and-mask loop writes the big-endian bytes |
| `CacheWriter.CountPool` | src/bytecode.cpp:157-203 | the loop over the pool adds up the sizes of its constants |
| `CacheWriter.FuncSize` | src/object.cpp:880-904 | data of body and defaults plus, in combined mode, their metadata |
| `CacheWriter.EncodeData` | src/bytecode.cpp:253-276 | writing a chunk: code size, pool size, code, constants |
| `CacheWriter.EmitFunc` | src/object.cpp:843-870 | writing a function with its default chunks |
| `CacheWriter.EncodeMetadata` | src/bytecode.cpp:278-298 | the order of separate blocks: those of function constants in the pool first, then the chunk's own |
| `CacheWriter.EmitMetadata` | src/object.cpp:872-878 | the blocks of a function: its body's, then those of its defaults |
| `CacheWriter.WriteCache` | src/options.cpp:115-160 | the cache file and, if separate, the debug file, both laid out byte by byte as the format says |
| `CodeReader.ReadMemValue` | src/bytes.cpp:33-49 | the shifting accumulator reads a big-endian number |
| `CodeReader.CodeReader.ReconstructByteCode` | src/bytes.cpp:106-121 | reading a chunk advances cursor and block index as described, or fails where bytes are missing |
| `CodeReader.CodeReader.ReconstructPool` | src/bytes.cpp:218-251 | the loop until the pool's end position |
| `CodeReader.CodeReader.ReconstructFunc` | src/bytes.cpp:156-188 | reading a function and its default chunks |
| `CodeReader.CodeReader.ReadMetadataBlock` | src/bytes.cpp:370-391 | one block: its size and that many ranges |
| `CodeReader.ReadMetadata` | src/bytes.cpp:393-406 | all blocks of the debug file |
| `CodeReader.RestoreCache` | src/options.cpp:193-234 | restoring a program from any files that are laid out as the format says for a program gives that program, as far as they keep it; for all files it yields what the reader specification says, and no program where bytes or debug blocks are missing |
| `CodeReader.SaveAndRestore` | src/options.cpp:193-234 | what was written is restored |
| `CodeReader.BinaryInspector.SkipByteCode` | src/bytes.cpp:773-788 | the inspector skips a chunk by its header sizes |
| `CodeReader.BinaryInspector.SkipFunction` | src/bytes.cpp:817-830 | and a function with its default chunks |
| `Optimizer.OptimizeSound` | src/optimizer.cpp:829-864 | every error-free evaluation has the same value and the same assignments after optimizing, wherever no condition, `and`/`or`, `!=` or `not in` is one of the cases below |
| `Optimizer.TypedFolds` | src/optimizer.cpp:58-199 | the key lemma: a well-typed constant that runs without an error folds to the literal of its value |
| `Optimizer.OptimizeFolds` | src/optimizer.cpp:829-864 | after optimizing, no constant that can be evaluated is left but literals, and no conditional expression whose condition is a constant |
| `Optimizer.OptimizeStmtSound` | src/optimizer.cpp:494-533 | a run of a statement without a runtime error has the same outcome after optimizing |
| `Optimizer.OptimizePrunes` | src/optimizer.cpp:494-615 | after optimizing, no `if` statement tests a constant, no loop is left whose condition is false, a loop whose condition is true has no else clause, and no loop that runs once is left |
| `Optimizer.ReachesExact` | src/optimizer.cpp:76-108 | the folder runs into the switch without a case, and has no meaning, if and only if a `!=` or `not in` in a part that is kept has operands that both fold to literals |
| `Optimizer.SafeDefined` | src/optimizer.cpp:76-108 | where expressions are shown to keep their meaning it does not |
| `Optimizer.SafeStmtDefined` | src/optimizer.cpp:494-533 | nor where statements are |
| `Optimizer.InequalityOfLiterals` | src/optimizer.cpp:93-102 | `1 != 2` is such an input |
| `Optimizer.EvaluateBinaryRight` | src/optimizer.cpp:76-156 | the folder computes the operators as the virtual machine does |
| `Optimizer.UnfoldedCondition` | src/optimizer.cpp:423-426 | a constant condition that was not folded is taken for false, which is right, whatever the branches, exactly when it is false |
| `Optimizer.UnfoldedIf` | src/optimizer.cpp:494-513 | the same for `if` statements, whatever their branches |
| `Optimizer.UnfoldedWhile` | src/optimizer.cpp:516-533 | the same for `while` loops, whatever their body, label and else clause |
| `Optimizer.LogicExact` | src/optimizer.cpp:58-74 | folding `and`/`or` of constants is right exactly when the operand that decides is a Boolean |
| `Optimizer.UnrollExact` | src/optimizer.cpp:573-615 | replacing a loop by its body is right exactly when the body does not end with a jump to that loop |
| `Optimizer.UntilTrue` | src/optimizer.cpp:607-615 | the test of an unrolled loop passes at once |
| `Optimizer.SumAsCondition` | src/optimizer.cpp:423-426 | `if 1 + 2: 1 else: 0` is 1, and 0 after optimizing |
| `Optimizer.LogicOfNumbers` | src/optimizer.cpp:66-71 | `1 and 2` is 2, and `true` after optimizing |
| `Optimizer.NestedBreak` | src/optimizer.cpp:573-605 | a `break` one block down is not seen: it leaves the enclosing loop after optimizing |
| `Mutability.RunKeeps` | src/vm.cpp:1235-1343 | over any run: a list or table only held by immutable handles keeps its contents, and every handle to it stays immutable, wherever it is copied, stored, indexed out of, iterated over or unpacked |
| `Mutability.FrozenForever` | src/object.cpp:262-271 | the list of an immutable literal is the same in every state the run reaches |
| `Mutability.LiteralSole` | src/vm.cpp:1359-1375 | a list literal is known only to the register it is built in |
| `Mutability.MadeImmut` | src/vm.cpp:1731-1757 | `immut` and a fixed declaration make that handle immutable |
| `Mutability.ViewsNeverWrite` | src/object.cpp:262-271 | a handle that came out of an immutable collection is immutable in every later state, and assigning an element through it fails |
| `Mutability.DerivedMarked` | src/object.cpp:1598-1692 | indexing, iterating and unpacking an immutable collection deliver such handles |
| `Mutability.GuardedRefuses` | src/core/methods/list.cpp:66-76 | element assignment, append, pop and clear through a handle to a guarded collection fail |
| `Mutability.GuardedStaysImmut` | src/vm.cpp:1758-1770 | `mut` on such a handle is an error |
| `Mutability.StepKeeps` | src/vm.cpp:965-1015 | each single instruction keeps the guard; the pairs that iterating a guarded table makes come under it |
| `Flags.StoredMeans` | src/vm.cpp:1318-1324 | after an assignment a collection handle is immutable exactly when it was before, or it was stored in a fixed variable without a mutability of its own |
| `Flags.DeclaredMeans` | src/vm.cpp:1716-1743 | the same for declarations: `make` never changes an immutable handle, `fix` makes immutable whatever is not explicitly mutable |
| `Flags.TakenMeans` | include/object.h:409-421 | an element takes its collection's mutability over but never loses its own immutability |
| `Mutability.Store.Assign` | src/vm.cpp:1300-1328 | assignment through references and to plain variables, with the flags as they are after it |
| `Mutability.Store.GetIndex` | src/vm.cpp:1330-1343 | the element is made immutable if the collection handle was, read before the destination is overwritten |
| `Mutability.Store.SetIndex` | src/object.cpp:262-282 | fails without a change through an immutable handle, and otherwise changes one element |
| `Mutability.Store.StartIter` | src/vm.cpp:838-859 | the iterator remembers the flags of the handle it was made from |
| `Mutability.Store.UpdateIter` | src/vm.cpp:861-877 | the next element, or the end: one step of the iterations described next |
| `ElementLaws.IterationOrder` | src/object.cpp:1598-1693 | a whole loop over a list or table, whatever its rounds do elsewhere: round `k` gets element `k`, each element once and in order, for a table as a pair of key and value |
| `ElementLaws.IterationEnds` | src/object.cpp:1609-1619 | after any number of rounds there is another one if and only if there is another element |
| `ElementLaws.NoRound` | src/object.cpp:1598-1601 | a loop over nothing has no round |
| `ElementLaws.GetIndexLaw` | src/object.cpp:1226-1244 | `obj[index]` delivers the element at that place, immutable if the collection is; otherwise nothing but the right error |
| `ElementLaws.SetIndexLaw` | src/object.cpp:1246-1264 | `obj[index] = value` replaces that element, or adds an entry to a table without the key, and leaves all others and all other collections; otherwise the right error |
| `ElementLaws.SetThenGet` | src/vm.cpp:497-507 | what was set is what the same index gives |
| `ElementLaws.UnpackLaw` | src/vm.cpp:965-1011 | variable `j` gets element `j`, the last one a new list of all that are left, in order; too few elements, and too many where none takes them, are errors |
| `ElementLaws.AssignLaw` | src/vm.cpp:1300-1328 | an assignment stores the value, in the variable behind a reference if there is one, with its mutability decided as for `StoredMeans`, and changes nothing else |
| `ElementLaws.DeclareLaw` | src/vm.cpp:1716-1743 | `make` and `fix` act on the registers of the declaration and no others |
| `ElementLaws.CopyAndMove` | src/vm.cpp:1169-1176 | copies leave the source, moves make it invalid |
| `ElementLaws.ExtendAndClear` | src/vm.cpp:1365-1375 | OP_EXT_LIST puts the registers behind the elements there are, in order |
| `ElementLaws.AppendThenPop` | src/core/methods/list.cpp:66-148 | an appended value is the last element, and popping takes exactly it from there |
| `Mutability.Store.Unpack` | src/vm.cpp:965-1011 | elements go to successive variables, the rest into a list, each with the collection's mutability |
| `Mutability.Store.Declare` | src/vm.cpp:1716-1743 | the loops over the registers of a declaration |
| `IntLiteral.LiteralExact` | src/lexer.cpp:237-296 | a literal of at most 255 characters in base 2, 8, 10 or 16 is read as its mathematical value exactly if that is below 2^63 and its separators stand between digits, and rejected otherwise |
| `IntLiteral.RangeTests` | dependencies/fast_float/fast_float.h:2386-2407 | for every base from 2 to 36, with or without a minus sign: the tests on the digit count and the wrapped value accept exactly the values that fit, and those that wrap into the range |
| `IntLiteral.ExactBases` | dependencies/fast_float/fast_float.h:1425-1441 | in which bases no value wraps into the range, so that the tests are right for all numbers: 2, 3, 4, 9, 10, 16, 19, 23, 29, 30, and 8 without a sign |
| `IntLiteral.TablesRight` | dependencies/fast_float/fast_float.h:1425-1441 | the two tables: min_safe is the least number of max_digits digits, and 64 bits do not hold all numbers of one digit more |
| `IntLiteral.ParseInt` | dependencies/fast_float/fast_float.h:2178-2429 | leading zeros, eight digits at a time, single digits and the range tests together, in all bases: the value, or an error, except that numbers that wrap into the range are taken for what they wrap to |
| `IntLiteral.FormatNumber` | src/lexer.cpp:237-270 | the filtered digits, and an error exactly when a separator among the characters looked at is misplaced |
| `IntLiteral.IntValue` | src/lexer.cpp:272-296 | value or error of a literal token, separators included |
| `IntLiteral.NegativeOctal` | dependencies/fast_float/fast_float.h:2386-2407 | an input: an octal text with a minus sign, as only the constructor `Int(text, 8)` passes it on, that is far out of range and taken for the least integer |
| `IntLiteral.QuinaryWraps` | dependencies/fast_float/fast_float.h:2386-2407 | an input: in base 5, without a sign, 2^64 + 5^27 is taken for 5^27 |
| `IntLiteral.LongLiteral` | src/lexer.cpp:237-270 | an input: 257 ones are read as 1, because the size is kept in one byte, and should be rejected |
| `IntLiteral.CutAtSeparator` | src/lexer.cpp:262-266 | an input: `0'` and 256 zeros is zero with a well-placed separator, and rejected because the separator is the last character looked at |
| `IntLiteral.CutBehindOne` | src/lexer.cpp:262-266 | an input: `1` and 256 separators should be rejected, and is read as 1 |
| `IntLiteral.LongExact` | src/lexer.cpp:237-296 | literals of more than 255 characters with well-placed separators: what is delivered, value or error, is that of the whole literal if and only if, when no digit is read or a separator is the last character read, the literal is too large, and otherwise what is read is too large already or all digits are zero |
| `IntLiteral.LongMisplaced` | src/lexer.cpp:237-296 | the same with a misplaced separator: rejected, as it should be, if and only if no digit is read, what is read is too large, a separator is the last character read, or one before it is misplaced |
| `IntLiteral.PlainCut` | src/lexer.cpp:239-256 | without prefix and separators the digits read are the first size modulo 256 |
| `DigitLaws.DigitsInOrder` | dependencies/fast_float/fast_float.h:1405-1458 | the digit table: decimal digits count from 0, letters of either case from 10 |
| `DigitLaws.OnlyDigits` | dependencies/fast_float/fast_float.h:1405-1458 | it has no other digits |
| `DigitLaws.DigitsLaw` | src/lexer.cpp:237-270 | the digits of a literal are its characters behind `0b`, `0o` or `0x` without the separators |
| `DigitLaws.SeparatorLaw` | src/lexer.cpp:237-270 | separators are well placed exactly when each stands between two digits |
| `Swar.EightTest` | dependencies/fast_float/fast_float.h:1832-1837 | the 64-bit test holds exactly when all eight bytes are digits |
| `Swar.DigitTestExact` | dependencies/fast_float/fast_float.h:1832-1837 | the same for words of any number of bytes |
| `Swar.ParseEightExact` | dependencies/fast_float/fast_float.h:1809-1819 | three multiplications turn eight digits into their number |
| `Limbs.StackVec.LongMul` | dependencies/fast_float/fast_float.h:3691-3717 | true exactly when the product fits the vector, which then holds the normalized product of the natural numbers |
| `Limbs.StackVec.SmallMul` | dependencies/fast_float/fast_float.h:3638-3651 | multiplication by one limb is exact, or the product does not fit |
| `Limbs.StackVec.LargeAddFrom` | dependencies/fast_float/fast_float.h:3653-3683 | addition of a shifted number with both carries is exact, or the sum does not fit |
| `Limbs.StackVec.SmallAddFrom` | dependencies/fast_float/fast_float.h:3613-3630 | a carry is propagated to the end |
| `Limbs.ScalarMul` | dependencies/fast_float/fast_float.h:3586-3608 | low and high limb of a product plus carry |
| `Limbs.ScalarAdd` | dependencies/fast_float/fast_float.h:3566-3584 | sum of limbs with its overflow |
| `Limbs.Compare` | dependencies/fast_float/fast_float.h:3843-3860 | the loop from the top limb decides the order of the natural numbers |
| `Limbs.StackVec.Normalize` | dependencies/fast_float/fast_float.h:3508-3516 | zero limbs at the top go, the number stays |
| `Ranges.Collect` | src/object.cpp:1536-1557 | iterating a range ends after exactly its length many values: start, start + step, ... |
| `Ranges.ContainsExact` | src/object.cpp:1157-1165 | a number is in a range exactly when iterating yields it |
| `Ranges.IndexExact` | src/object.cpp:1173-1191 | for all indices whose position is a 64-bit integer: indexing gives the elements and fails behind the last exactly when the bounds differ or the step is positive |
| `Ranges.IndexAlways` | src/object.cpp:1173-1191 | for all indices: indexing agrees with iterating if and only if, besides, the position of the largest index is a 64-bit integer; the stop is not within one step of the far end of the integers |
| `Ranges.OperatorIndex` | src/object.cpp:1173-1191 | for ranges written with `..` and all indices: if and only if an ascending range starts at 0 or below, a descending one at -1 or above |
| `Ranges.WrappedIndex` | src/object.cpp:1173-1191 | inputs: the largest index into 5..10 and into 0..10 by 2 wraps around and is accepted |
| `Ranges.OnePastTheEnd` | src/object.cpp:1173-1191 | in the remaining case index 1 is not refused |
| `Ranges.LengthMeans` | src/object.cpp:1167-1171 | the length counts the elements up to the stop |
| `Ranges.MadeRangesValid` | src/vm.cpp:273-284 | ranges written in a program, whatever their bounds, pass validation |
| `Ranges.ConstructedExact` | src/object.cpp:1131-1148 | the ranges that are accepted: the step leads from the start to the stop, or the bounds are equal |
| `Ranges.InclusiveExact` | src/vm.cpp:273-284 | `a..b` begins with `a`, ends with `b`, and contains exactly the numbers between them, one after the other, upwards or downwards |
| `Ranges.ExclusiveExact` | src/vm.cpp:273-284 | `a..<b` leaves its stop out, and contains exactly the numbers it says, if and only if `a` is below `b`; otherwise it counts down from `a` past `b` |
| `EscapeSeq.ParseUnicodeSequence` | src/escape_seq.cpp:270-310 | accepts exactly `\u{`, one to six hex digits that name a Unicode scalar value, `}`; then the string has grown by the UTF-8 form of that value, and otherwise not at all |
| `EscapeSeq.EncodeUtf8` | src/escape_seq.cpp:60-88 | the appended bytes decode to the value, and no shorter sequence does (section 3 of RFC 3629) |
| `EscapeSeq.Utf8Unique` | src/escape_seq.cpp:60-88 | there is one such sequence for each value |
| `EscapeSeq.AppendedScalar` | src/escape_seq.cpp:60-88 | the string as a whole decodes to what it was before and the new value |
| `EscapeSeq.ConsumeUnicodeSequence` | src/escape_seq.cpp:220-268 | the number of digits, exactly when they are followed by the brace and at most six |
| `EscapeSeq.StrToHex` | src/escape_seq.cpp:49-58 | the value of the digits; six of them never overflow |
| `DigitLaws.HexAgrees` | include/utils.h:127-147 | hex digits of escapes and of separators are the digits of base 16, with the same values in either case |

## Left out

Of the model:

- The compiled language has integers, Booleans, null, lists, variables, operators, blocks, declarations, if, while, repeat, break and continue. Strings, tables, ranges, doubles (hence `/` and `**`), for, match, index and field assignment, unpacking, calls and type declarations are not compiled in this model.
- Registers and jump distances: `nextReg` is an unbounded counter and distances may have any size; that they fit one and two bytes is a hypothesis (`ExprFits`, `Fits`), as the source does not check it.
- `Compiler.Compiler.CompileStmt`: stops at the first error, where the source goes on to collect more diagnostics and then clears the chunk; it excludes loops nested under the same label, which are the subject of `Labels`, `break` in an else clause of a loop belonging to that loop, and `continue` there, which the source never patches.
- The window of a script is the register file from 0; `ProgramCorrect` and `VirtualMachine` leave out cells, scopes beyond the stack of their starts, and mutability flags, which `Cells`, `Calls` and `Mutability` treat on their own.
- `VirtualMachine.VirtualMachine.ExecuteOp`: requires that the case is one the source defines; for compiled scripts that is proved.
- Signed overflow, which C++ leaves undefined, wraps around, also where `>>` by 0 of a negative number runs into it; moving out of a register leaves it invalid, as in the build without an allocator.
- `Ranges.ContainsExact`: ranges whose bounds and step overflow 64 bits are excluded, as iteration would be undefined.
- `Ranges.IndexAlways`: ranges whose only element is less than one step away from the far end of the integers, where it depends on remainders which wrapped position comes before the stop; steps 1 and -1 are complete.
- `Resolve.ResolveSound`: functions marked closed, which may not capture, are left out, and cell indices do not wrap at 256.
- `Cells.CellStore.Run`: references to elements, which also use cells, are left out, and so is dropping instances at scope exit.
- `Calls.CallTransparent`: methods, types and implicit calls are left out; the recursion that runs default arguments is the `DefaultOf` state of the machine; a HALT inside a function body and arguments that start at register 0, neither of which is emitted, are undefined; the register file is as long as needed; references in registers and cells, and the flags assignments set, are left out here.
- `Calls.ParametersAtEntry`: that no default assigns a parameter before its own is a hypothesis, as `b = a++` does; so is that each default reaches its HALT.
- `Calls.StaleArgCount`: the names the functions store in `_func_` stand for any constants.
- `Closures.UseLater`: one activation at a time; that captured variables are still in scope when CLOSURE runs, and a variable addressed by its register when it is used, is a hypothesis that the scoping of the compiler provides. References in cells are left out.
- `CacheFile.FileBack`: names and texts are byte sequences without zeros, names have at most 255 bytes and are empty only for lambdas; sizes stay below 2^63; the iife flag and the flag bits of constants are not stored; Boolean and null constants, which the compiler never puts into a pool, are only skipped by the reader; sorting of metadata is left out; leaving the process on a malformed file is a result without value.
- `Optimizer.OptimizeSound`: the tree is rewritten by functions and not in place.
- `CacheWriter.EncodeMetadata`: the source calls `emitMetadata` on every pool constant and takes it for a function, which is undefined for all others; in the model only function constants write debug blocks, as the reader expects.
- `CodeReader.RestoreCache`: where bytes or blocks are missing the model has no program; in the source sizes near 2^64 overflow or exhaust memory there, and a block index past the end is undefined.
- `Disassembly.ScriptWellFormed`: scripts of the core language; `for` statements come under `ForLoop.ForPiece`, given their parts, and chunks of functions do not.
- `ElementLaws.IterationOrder`: the body of the loop does not change the list or table itself, which the source leaves undefined, nor the iterator; what it does with everything else is free.
- `Mutability.RunKeeps`: lists and tables with their iterators, variables and references to variables; strings, ranges, instances and references to elements or fields are left out. Lists and tables are addressed by index, a table's lookup is a parameter, and an iterator on a list that shrank ends. The `view` mark of a handle is history that the interpreter does not keep and no rule reads.
- `IntLiteral.ParseInt`: 64-bit results and plain characters; the branches for 8- and 16-bit results and for vector instructions are left out.
- `Limbs.StackVec.LongMul`: 64-bit limbs; multiplying by an empty number leaves the first factor, as in the source.
- `EscapeSeq.ParseUnicodeSequence`: the messages of the five error cases; characters are unsigned bytes.

Of the repository:

- File access, the REPL, options, modules and imports, diagnostics and their display, printers of tokens and trees.
- Lexer and parser apart from number and Unicode escapes, and the type checker.
- Reference counts, arenas and the hash table; tables are maps or sequences here.
- The rounding half of fast_float.
- Comprehensions, match, instances, constructors and destructors, field and element references.
- Escapes other than `\u{...}`.

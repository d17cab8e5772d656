# Verification models for Emojicode

Dafny models of the parts of Emojicode whose correctness is hardest to see from the code: the path
analysis and code generation of the compiler, the reference counting and type descriptions of the
runtime, the grammar checker, the text functions of the `s` package, and the language server's
transport, scheduling and positions. `dafny verify dfyconfig.toml` verifies everything.

Code that changes state is modelled as classes and loops. Each method is proved against a function
or predicate on values, and the theorems are about those.

**Compiler.** `Syntax` has the statements that branch, loop, leave a function or initialize
something; every other expression is a leaf that the environment answers. `Semantics` says what a
program does: it consumes answers and leaves a trace of effects. `PathAnalysis` is the path analyser
and the analyse methods as functions on the branches from the main branch to the current one;
`Analyser` is the same as an object with loops. `IR` has basic blocks, the builder and what a graph
does; `Lowering` and `Generator` are the generate methods as functions and as an object. The results:

- what the analysis reports as certain has happened, and what happens is potential
  (`PathSoundness`, `Compilation.AnalysisSound`), also where the ids of variables that are out of scope
  are used again (`PathSoundness.StmtKnown`, `Compilation.IdsAreReused`);
- reading a variable is an error exactly where its initialization is not certain (`Acceptance`), so no
  run of code that passes the analysis reads a variable that is not initialized (`Reads`,
  `Compiler.CompileFunction`); `Structure` and `EarlyReads` say by structure alone what is certain and
  potential, which reads are errors, and which really happen on some run;
- `Ways` says by structure alone on which ways a statement can be gone through, and whether an
  incident happens on them; these are exactly the runs (`Ways.StmtAlong`, `Ways.StmtTakes`);
- measured against them the analysis is exact about returning: a function is rejected exactly if some
  run gets to its end (`Exactness.ReturnedExactly`, `Exactness.RejectedExactly`). It is exact about
  initializers, too: their requirements are found to be met exactly if every run to the end meets them
  (`Exactness.InitializedExactly`). For local variables it is exact where control never leaves a body
  early (`Structure.LocalExactlyOnRuns`);
- the emitted graph halts with a result and a trace exactly if the program has them
  (`Compilation.LoweringPreservesMeaning`), and never runs into an undefined value or the end of a
  block (`Compilation.NeverFaults`);
- every emitted block ends in its only terminator, the current block is terminated exactly if the
  analyser says that the code returned, and each phi has one entry for each predecessor
  (`FunctionShape`, `Predecessors`, `Compilation.CompiledWellFormed`).

**Runtime.** `RefCount` has the atomic steps of any number of threads that retain, release and
upgrade references to one object, and an invariant that every interleaving keeps. The object ends as the
release of its last strong reference asks, once, and nothing ever gets stuck. `TypeDescriptions`
are trees of types flattened in preorder, and the cursors that walk them; `Interning` keeps one copy
of equal descriptions and conformance tables.

**Grammar checker.** `GrammarSemantics` says which part of an input an expression matches. The
memoising `Matcher`, with its compressed sets of ends (`EndSets`), computes exactly that, and ends
without an error, for every grammar in which no rule can get back to itself without having matched
anything and whose iterations of `char` and `token` are what the shortcut for them takes them for
(`Matcher.ShortcutExactly`). On other grammars it ends, too, an error names a rule that does get back to
itself, and a rule that must get back to itself is never answered: where nothing is uncertain, every
rule is answered exactly if none gets back to itself (`GrammarCheck.AnswersAll`). `LeftRecursion`
reports rules from the check's own view of empty literals; `Grammars.MissedExactly` compares any two
views, and `GrammarLaws` says what it means to match nothing, and what differences are to the check.

**Text.** UTF-8 (section 3 of RFC 3629) in `Utf8`, canonical ordering (section 3.11 of the Unicode
Standard) in `Reordering`, grapheme cluster boundaries (section 3.1.1 of UAX #29) in `GraphemeRules`,
graphemes of any byte string in `GraphemeText`, and integers in `IntText`.

**Language server.** `Framing` and `Transport` read messages from a stream that arrives in chunks,
`Scheduling` answers requests now or after a pending check, `Positions` converts positions,
`Encodings` says what their units are,
`SemanticTokens` encodes tokens (LSP 3.17, section "Semantic Tokens"), and `PercentEncoding` maps
URIs to paths and back.

## Where the code differs from what it is for

- In a loop the analyser does not know what earlier iterations did: a super initializer may be called
  twice in a function that is accepted (`Compilation.LoopRepeatsUnnoticed`). Where all that happened in
  front of a loop is potential, an incident is noticed before every iteration exactly if it was
  potential in front of the loop, happens on no way through the loop, or the loop is behind the end of
  the function (`Exactness.LoopNoticedExactly`).
- In the later arms of an if statement the analyser does not know what happened in the conditions of
  the arms before, because each condition is a branch of its own (`Exactness.LaterArmUnnoticed`). Where
  all that happened in front of the statement is potential, an incident is noticed in an arm exactly if
  it was potential in front of the statement, happens on no way past the arms before, or the statement
  is behind the end of the function (`Exactness.ArmNoticedExactly`). So all that happened is potential
  from the beginning of a function on, behind each statement and in its scopes, but not in the arms
  behind such a condition (`Exactness.StmtHere`, `Exactness.ScopeHere`, `Exactness.HandleHere`).
- Code behind a return is analysed, too, and of local variables branches that return count, so a body may
  be rejected although no run reads a variable that is not initialized (`EarlyReads.DeadCodeIsRejected`,
  `EarlyReads.RejectedInVain`). Where control never leaves a body early, or a body without dead code only
  reads variables of the instance, that is not so (`EarlyReads.PassesExactly`).
- A use in the right operand of a short-circuit operator is recorded as certain
  (`Exactness.UseRecordedTooEarly`). `Exactness.UseIsCertain` and `Exactness.CertainExactly` say when
  it is, and `Compilation.AnalysisSound` covers the uses that are recorded only where they certainly
  happen. The compiler only asks whether uses are potential.
- Strings are divided into graphemes without folding in their first code point. That is wrong exactly
  for strings that begin with three regional indicators or an emoji joined to another one
  (`GraphemeRules.StringBreaksAreBoundaries`).
- `w` is missing in the digits that integers are printed with, so in the bases from 33 on not all
  integers are read back (`IntText.ReadsPrinted`, `IntText.MissingLetter`).
- Whether a header longer than the limit is accepted depends on how it arrives
  (`FramingProofs.FitsExactly`). If it is rejected anyway, what follows depends on it exactly if it is
  read differently by a transport that looks for the next header (`FramingProofs.RefusedExactly`).
- The check for left recursion takes empty literals for literals that match something, so it misses a
  rule that the matcher then cannot match (`GrammarCheck.EmptyLiteralUnnoticed`). That no rule of a text
  grammar gets back to itself is so exactly if none is reported and the check misses no step on a way
  from a rule back to it (`Grammars.MissedExactly`, `GrammarCheck.MatchesWhole`).
- The matcher takes it for granted that `char` and `token` mean anything, which nothing checks: if
  `char` means something else, iterating it gives wrong ends (`GrammarCheck.CharIsNotAnything`). The
  shortcut for that is right everywhere exactly if the rule matches each character or token by itself
  and, for `+`, does not match nothing (`Matcher.ShortcutExactly`).
- If removing the diagnostics of a dropped root fails, requests that wait for it are forgotten, and
  only those (`Scheduling.Server.DropRoot`, `Scheduling.Server.Run`).
- A client reads other semantic tokens than were meant exactly if a number does not fit 32 bits
  (`SemanticTokens.ClientReads`).

## Model

| member | source | states |
|---|---|---|
| Analyser.PathAnalyser.Record | Compiler/Analysis/PathAnalyser.hpp:78-81 | the incident is certain and potential in the current branch, and nothing else changes |
| Analyser.PathAnalyser.BeginBranch | Compiler/Analysis/PathAnalyser.hpp:84-87 | a new branch without incidents is current |
| Analyser.PathAnalyser.EndBranch | Compiler/Analysis/PathAnalyser.cpp:100-105 | the branch is kept by its parent, which is current again |
| Analyser.PathAnalyser.FinishUncertainBranches | Compiler/Analysis/PathAnalyser.hpp:96-99 | what may have happened in any branch may have happened; nothing more is certain |
| Analyser.PathAnalyser.ForgetVariable | Compiler/Analysis/PathAnalyser.hpp:107-111 | the variable's initialization, and only that, is neither certain nor potential in the current branch |
| Analyser.PathAnalyser.HasCertainly | Compiler/Analysis/PathAnalyser.cpp:64-71 | true exactly if the incident is certain in the current branch or one around it |
| Analyser.PathAnalyser.HasPotentially | Compiler/Analysis/PathAnalyser.cpp:73-80 | true exactly if the incident is potential in the current branch or one around it |
| Analyser.PathAnalyser.IntersectCertainIncidents | Compiler/Analysis/PathAnalyser.cpp:44-62 | exactly what is certain in every branch that counts; nothing if none counts |
| Analyser.PathAnalyser.CopyCertainIncidents | Compiler/Analysis/PathAnalyser.cpp:27-42 | what all branches have in common is certain, and of the instance what all branches that go on have in common |
| Analyser.PathAnalyser.CopyPotentialIncidents | Compiler/Analysis/PathAnalyser.cpp:82-87 | what is potential in some branch is potential |
| Analyser.PathAnalyser.FinishMutualExclusiveBranches | Compiler/Analysis/PathAnalyser.cpp:89-98 | both sets are merged before the branches are cleared |
| Analyser.AnalyseStatements | Compiler/AST/ASTStatements.cpp:29-45 | the statements are analysed in order up to an error of reading, which is the first there is; without one, the first point at which the function certainly returned is remembered |
| Analyser.PopScope | Compiler/AST/ASTStatements.cpp:66-75 | exactly the variables of the scope are forgotten |
| Analyser.AnalyseSimple | Compiler/AST/ASTStatements.cpp:77-130 | what a statement without blocks records, also a return and a call that never returns, or the error of the first read in it that is wrong |
| Analyser.AnalyseSetup | Compiler/AST/ASTConditionalAssignment.cpp:32-45 | what a condition or a bound variable records, or the error of the first read in it that is wrong |
| Analyser.AnalyseConditions | Compiler/AST/ASTControlFlow.cpp:25-39 | each condition with its block, and the else block, is a branch of its own; or the first error in them |
| Analyser.AnalyseIfStatement | Compiler/AST/ASTControlFlow.cpp:24-46 | the branches exclude each other if there is an else block, and are uncertain otherwise; or the first error in them |
| Analyser.AnalyseLoop | Compiler/AST/ASTControlFlow.cpp:58-66 | condition and block are an uncertain branch; or the first error in them |
| Analyser.AnalyseErrorHandler | Compiler/AST/ASTControlFlow.cpp:76-118 | the two blocks with their variables exclude each other; or the first error in call and blocks |
| Analyser.AnalyseStatement | Compiler/AST/ASTUnsafeBlock.cpp:12-23 | an unsafe block is analysed in the current branch; any statement passes exactly if no read in it is wrong |
| PathSoundness.StmtSound | Compiler/Analysis/PathAnalyser.cpp:27-98 | on every run that completes a statement what is certain has happened, including uses that are not in operands that may be skipped, and the function has not returned; whatever happens on any run is potential; variables may have the ids of earlier ones |
| PathSoundness.StmtKnown | Compiler/Scoping/SemanticScoper.cpp:30-40 | after a statement the analyser only knows of variables that are in scope then, so that an id can be given to another variable |
| PathSoundness.AllSound | Compiler/AST/ASTStatements.cpp:29-45 | the same for the statements of a block |
| PathSoundness.BranchSound | Compiler/AST/ASTControlFlow.cpp:26-31 | the branch of a scope describes its runs, trusted uses included, after its variables were forgotten |
| PathSoundness.ChainSound | Compiler/AST/ASTControlFlow.cpp:24-46 | if there is an else block, some branch that did not return describes the run |
| PathSoundness.FinishSound | Compiler/Analysis/PathAnalyser.cpp:27-42 | merging is sound although branches that returned do not count for the instance |
| PathSoundness.WhileSound | Compiler/AST/ASTControlFlow.cpp:58-66 | soundness for any number of iterations |
| PathSoundness.HandleSound | Compiler/AST/ASTControlFlow.cpp:76-118 | soundness whether or not the call raises an error |
| Compilation.AnalysisSound | Compiler/Analysis/PathAnalyser.hpp:113-117 | for whole bodies with parameters and local variables: certain incidents happened on every run to the end (a use if no expression of the body records it in an operand that may be skipped), certain returns mean there is none, and all that happened is potential |
| Compilation.IdsAreReused | Compiler/Scoping/SemanticScoper.cpp:32-35 | a variable with the id of one in an earlier block is not considered initialized, and is not |
| Analyser.PathAnalyser.UninitializedError | Compiler/Analysis/PathAnalyser.cpp:17-25 | reading passes exactly if the initialization is certain; otherwise the error says whether it is potential |
| Analyser.AnalyseReads | Compiler/AST/ASTVariables.cpp:33-36 | the variables that an expression reads pass exactly if all are certainly initialized; otherwise the error is that of one that is not: not initialized, or not on all paths if it is potential |
| Reads.NeverReadsEarly | Compiler/AST/ASTVariables.cpp:33-36 | no run of a body that passes reads a variable of the function or the instance that is not initialized |
| Reads.StmtFound | Compiler/AST/ASTVariables.cpp:33-36 | the same of every statement, in loops and operands that are only evaluated sometimes, too |
| EarlyReads.ErrorsExactly | Compiler/Analysis/PathAnalyser.cpp:17-25 | a body passes exactly if every variable that it reads is initialized before it or given by what is in front of the read; an error is about one that is not, and says whether anything in front of the read may initialize it |
| EarlyReads.InitializedPasses | Compiler/Analysis/PathAnalyser.cpp:17-25 | a body that only reads what is initialized before it passes, whatever else it does |
| EarlyReads.MetExactly | Compiler/AST/ASTVariables.cpp:33-36 | some run reads a variable too early exactly if there is a way to a read without an initialization |
| EarlyReads.PassesExactly | Compiler/AST/ASTVariables.cpp:33-36 | if control never leaves a body early, or it has no dead code and only reads variables of the instance, it passes exactly if no run reads a variable that is not initialized |
| EarlyReads.RejectedInVain | Compiler/Analysis/PathAnalyser.cpp:17-25 | a body is rejected although no run reads a variable too early exactly if a read is wrong by structure, but no way leads to one |
| EarlyReads.DeadCodeIsRejected | Compiler/AST/ASTStatements.cpp:29-45 | a read behind a return is rejected although it never happens |
| Ways.StmtAlong | Compiler/AST/ASTControlFlow.cpp:24-118 | every run through a statement is one of its ways, and any incident happens on it exactly if it does on the way; the variables of a scope end with it |
| Ways.StmtTakes | Compiler/AST/ASTControlFlow.cpp:24-118 | there are answers that take control along every way through a statement, using up exactly these answers |
| Ways.WhileTakes | Compiler/AST/ASTControlFlow.cpp:58-66 | a loop can be left at once or after one iteration, on every way there is |
| Exactness.StmtReturned | Compiler/Analysis/PathAnalyser.cpp:44-62 | the analyser considers a statement to return exactly if it has no way through |
| Exactness.ReturnedExactly | Compiler/Analysis/FunctionAnalyser.cpp:142-180 | a function certainly returns for the analyser exactly if no run gets to the end of its body, whatever its parameters and variables |
| Exactness.RejectedExactly | Compiler/Analysis/FunctionAnalyser.cpp:165-175 | a function with a return type is rejected exactly if some run gets to the end of its body |
| Exactness.CertainExactly | Compiler/Analysis/PathAnalyser.cpp:64-71 | an incident happens on all runs to the end exactly if there is no way through the body without it |
| Exactness.InitializedExactly | Compiler/Analysis/FunctionAnalyser.cpp:206-230 | an instance variable is initialized, or the super initializer called, on every run to the end exactly if that is certain for the analyser or it finds that the end is never reached |
| Exactness.StmtSettled | Compiler/Analysis/PathAnalyser.cpp:27-42 | after each statement an incident of the instance is certain, or control elsewhere, exactly if there is no way without the incident |
| Exactness.CertainOnAllWays | Compiler/Analysis/PathAnalyser.cpp:27-71 | what is certain for the analyser is on all ways; a use, if every operand that records it is sure |
| Structure.GivenExactly | Compiler/Analysis/PathAnalyser.cpp:27-62 | any incident is certain at the end of a body exactly if some statement records it outside all branches, or an if statement with an else block or an error handler does in every branch; branches that return do not count for the instance, unless all do |
| Structure.PotentialExactly | Compiler/Analysis/PathAnalyser.cpp:73-98 | an incident is potential at the end of a body exactly if anything in the body records it, unless it is about a variable whose scope has ended |
| Structure.StmtMarked | Compiler/AST/ASTStatements.cpp:77-130 | whenever a run leaves the function in a statement, that it returned has happened |
| Structure.LocalExactlyOnRuns | Compiler/Analysis/PathAnalyser.cpp:27-71 | if control never leaves a body early, a local variable is certain exactly if it is initialized on all runs |
| Exactness.UseIsCertain | Compiler/AST/ASTBinaryOperator_CG.cpp:112-141 | a use happens whenever an expression is evaluated exactly if there is no way to one of its values without it |
| Exactness.UseRecordedTooEarly | Compiler/AST/ASTVariables.cpp:29 | a use in a right operand is recorded as certain although it does not happen |
| Compilation.LoopRepeatsUnnoticed | Compiler/AST/ASTSuper.cpp:43-45 | an accepted function calls the super initializer twice in a loop, and the analyser does not consider it called potentially |
| Exactness.LoopNoticedExactly | Compiler/AST/ASTControlFlow.cpp:58-66 | where all that happened in front of a loop is potential, that an incident happened before an iteration is noticed exactly if it was potential in front of the loop, happens on no way through it, or the function has returned before |
| Exactness.LoopNoticed | Compiler/AST/ASTControlFlow.cpp:58-66 | there all incidents are noticed before all iterations exactly if all that happens on a way through the loop was potential in front of it, or the function has returned |
| Exactness.ArmNoticedExactly | Compiler/AST/ASTControlFlow.cpp:25-39 | where all that happened in front of an if statement is potential, that an incident happened in front of any arm is noticed exactly if it was potential in front of the statement, happens on no way past the arms before, or the function has returned before |
| Exactness.LaterArmUnnoticed | Compiler/AST/ASTControlFlow.cpp:25-39 | a use in a condition that does not hold has happened in the else block, but is not potential there |
| Exactness.StmtHere | Compiler/Analysis/PathAnalyser.hpp:78-99 | if all that happened in front of a statement is potential, so it is behind it |
| Exactness.ScopeHere | Compiler/AST/ASTControlFlow.cpp:58-66 | and within a scope, if it is in front of its condition |
| Exactness.HandleHere | Compiler/AST/ASTControlFlow.cpp:76-118 | and in front of both blocks of an error handler, if it is in front of its call |
| Exactness.StmtConsistent | Compiler/Analysis/PathAnalyser.hpp:78-81 | what is certain in a branch is potential in it, after every statement |
| Exactness.CertainIsPotential | Compiler/Analysis/PathAnalyser.cpp:64-80 | so whatever is found to be certain is found to be potential, with all branches around |
| Generator.GenerateIf | Compiler/AST/ASTControlFlow_CG.cpp:18-65 | the loop over conditions builds the blocks of the recursive definition; the block after is inserted exactly if some branch leads to it |
| Generator.GenerateLoop | Compiler/AST/ASTControlFlow_CG.cpp:67-90 | condition, body and the block after, in the order of their creation and insertion |
| Generator.GenerateErrorHandler | Compiler/AST/ASTControlFlow_CG.cpp:92-128 | error block, value block and the block after, if it is reached |
| Generator.GenerateBlock | Compiler/AST/ASTStatements_CG.cpp:19-25 | only the statements before the cut are generated |
| Generator.GenerateSimple | Compiler/AST/ASTStatements_CG.cpp:27-55 | returns, raises and calls that never return end the current block |
| Generator.GenerateLogical | Compiler/AST/ASTBinaryOperator_CG.cpp:112-141 | the blocks and the phi of a short-circuit operator |
| Compiler.CompileFunction | Compiler/Analysis/FunctionAnalyser.cpp:165-179 | the objects together compile a function with any parameters and local variables, whose graph is well-formed; it passes exactly if no read is wrong, otherwise the error is that of a wrong read; and if it passes no run reads a variable that is not initialized |
| Simulation.RunExpr | Compiler/AST/ASTBinaryOperator_CG.cpp:112-141 | the graph of an expression asks the same questions as its evaluation and ends with its value in the operand |
| Simulation.RunStmt | Compiler/AST/ASTControlFlow_CG.cpp:18-128 | where control can be, the graph of a statement does what the statement does |
| Simulation.RunAll | Compiler/AST/ASTStatements_CG.cpp:19-25 | dropping the statements behind the cut changes no run |
| Simulation.RunIf | Compiler/AST/ASTControlFlow_CG.cpp:18-65 | the graph of an if statement does what the statement does, whether or not the block after exists |
| Simulation.RunWhile | Compiler/AST/ASTControlFlow_CG.cpp:67-90 | the graph of a loop does what the loop does, however often it repeats |
| Simulation.RunHandle | Compiler/AST/ASTControlFlow_CG.cpp:92-128 | the graph of an error handler does what the handler does |
| Compilation.RunFunction | Compiler/AST/ASTStatements_CG.cpp:19-55 | the run of the graph gets to the result of the program |
| Compilation.LoweringPreservesMeaning | Compiler/AST/ASTControlFlow_CG.cpp:18-128 | the graph halts with an outcome and a trace exactly if the program has this outcome and trace |
| Compilation.NeverFaults | Compiler/AST/ASTBinaryOperator_CG.cpp:136-140 | no run reads an undefined operand, misses a phi entry or leaves a block at its end |
| Compilation.AcceptedReturns | Compiler/Analysis/FunctionAnalyser.cpp:165-175 | an accepted function with a return type never gets to the end of its body |
| Compilation.CompiledWellFormed | Compiler/AST/ASTControlFlow_CG.cpp:61-64 | every block of the function ends in its only terminator, branches lead to blocks of the function, unneeded blocks stay empty and out of it, and phis agree with predecessors |
| LoweringFrame.FrameStmt | Compiler/AST/ASTControlFlow_CG.cpp:18-128 | generating a statement only appends to the current block and to new blocks, and only branches to new blocks |
| FunctionShape.ShapeAll | Compiler/AST/ASTStatements.cpp:29-45 | after live statements the current block is terminated exactly if there is a cut, and every other new block is finished; nothing is appended behind a terminator |
| FunctionShape.ShapeIf | Compiler/AST/ASTControlFlow_CG.cpp:41-64 | the current block is terminated exactly if the analyser says the if statement returned |
| FunctionShape.ShapeWhile | Compiler/AST/ASTControlFlow_CG.cpp:84-89 | a loop leaves an open block |
| FunctionShape.ShapeHandle | Compiler/AST/ASTControlFlow_CG.cpp:109-127 | the current block is terminated exactly if the analyser says the handler returned |
| FunctionShape.IfReturned | Compiler/AST/ASTControlFlow_CG.cpp:61-64 | the generator adds no block after an if statement exactly if the analyser says that it returned |
| FunctionShape.ChainReturned | Compiler/AST/ASTControlFlow.cpp:34-45 | no block reaches the end exactly if all branches returned and there is an else block |
| FunctionShape.HandleReturned | Compiler/AST/ASTControlFlow_CG.cpp:124-127 | a handler returned exactly if both of its blocks did |
| Predecessors.PhisExpr | Compiler/AST/ASTBinaryOperator_CG.cpp:136-139 | for nested operators, too, the incoming blocks of each phi are exactly the predecessors of its block |
| Predecessors.PhisStmt | Compiler/AST/ASTControlFlow_CG.cpp:18-128 | no statement adds a predecessor to a block with a phi |
| RefCount.StepInv | runtime/main.cpp:98-236 | every atomic step of every thread keeps the invariant, those of a destructor with weak references to its own object included |
| RefCount.RunInv | runtime/main.cpp:98-236 | so does every interleaving |
| RefCount.CountsAreReferences | runtime/Internal.hpp:19-24 | the strong count is the number of strong references; the weak count is that of weak ones plus the one share of the strong side |
| RefCount.EndsOnce | runtime/main.cpp:127-143 | the object is destructed and freed, and the block deleted, at most once each, in this order and after the last release; if all references are gone and all threads are done, exactly once |
| RefCount.EndsAsAsked | runtime/main.cpp:137-143 | in every run the object ends as the release of its last strong reference asks: with its destructor or without |
| RefCount.LastRelease | runtime/main.cpp:137-138 | if there is no strong reference left, exactly one release was the last |
| RefCount.NothingDangles | runtime/main.cpp:98-236 | no step uses a freed object or a deleted block, and no count that is zero is lowered |
| RefCount.NoResurrection | runtime/main.cpp:225-227 | once there is no strong reference there never is one again |
| RefCount.AcquireOnlyLive | runtime/main.cpp:221-236 | an upgrade never raises a zero count, returns a live object with a reference of its own, and gives up only if the object is gone for good |
| RefCount.AcquiresLive | runtime/main.cpp:221-236 | alone, an upgrade ends after two steps, with a strong reference exactly if the object is live |
| RefCount.ExchangeSucceeds | runtime/main.cpp:233-234 | an exchange that does not fail by chance succeeds exactly if the count is still the one that was read |
| RefCount.CanFinish | runtime/main.cpp:137-143 | the thread that ends the object can go on by itself until the block is deleted |
| RefCount.NothingLeaks | runtime/main.cpp:127-143 | if no reference is left, the block is deleted or exactly one thread is about to |
| RefCount.MoreReferences | runtime/main.cpp:98-207 | who holds a strong reference can make another one, and a weak one |
| RefCount.MoreWeakReferences | runtime/main.cpp:209-213 | who holds a weak reference can make another one, in the destructor, too |
| RefCount.CanAlwaysEnd | runtime/main.cpp:98-236 | nothing gets stuck: from every state some run ends with the block deleted |
| TypeDescriptions.TypeDescriptionLength | runtime/main.cpp:325-333 | the size of the first type, whatever follows it |
| TypeDescriptions.SkipInherited | runtime/main.cpp:336-340 | both cursors are behind the arguments to the superclass |
| TypeDescriptions.CheckGenericArgs | runtime/main.cpp:335-347 | true exactly if the own arguments agree, and then both cursors are behind all arguments |
| TypeDescriptions.IndexTypeDescription | runtime/main.cpp:359-364 | the cursor is at the type with this index |
| TypeDescriptions.AgreeIsEquality | runtime/main.cpp:341-345 | arguments agree at all levels exactly if they are equal but for inherited arguments and witnesses |
| TypeDescriptions.OwnFollow | runtime/main.cpp:335-347 | the own arguments of a type are those behind the inherited ones |
| TypeDescriptions.DescribedIsFlattened | runtime/main.cpp:325-326 | memory describes types exactly if it holds their preorder |
| TypeDescriptions.DescribedOnce | runtime/main.cpp:325-326 | entries describe only one row of types |
| Interning.TypeValues.TypeValue | runtime/main.cpp:366-386 | the copy holds the description, and a new one is only made if there is none |
| Interning.MultiprotocolTables.Table | runtime/main.cpp:273-302 | the table holds the conformances, whether or not the thread's cache has it |
| Interning.SameCopy | runtime/main.cpp:252-253 | copies are the same exactly if their contents are |
| LeftRecursion.FindNullable | tools/grammar_check.py:618-623 | the loop finds the least set of rules that may match nothing, in the check's view |
| LeftRecursion.ReachesItself | tools/grammar_check.py:646-656 | the search finds the rule exactly if it reaches itself without having matched anything, in the check's view |
| LeftRecursion.FindLeftRecursion | tools/grammar_check.py:600-657 | exactly the rules are reported that reach themselves in the check's view |
| Grammars.NullableIsClosed | tools/grammar_check.py:604-623 | after as many rounds as there are rules every rule that may match nothing is found |
| Grammars.NullableIsLeast | tools/grammar_check.py:604-623 | and no other rule is |
| GrammarLaws.NullableMatches | tools/grammar_check.py:604-616 | without differences an expression is found to match nothing exactly if it does, at any position, in text and in tokens |
| GrammarLaws.NullableExactly | tools/grammar_check.py:604-623 | of a grammar without differences and empty literals the check finds exactly the rules that match nothing |
| GrammarLaws.SameWithoutDifferences | tools/grammar_check.py:614-639 | the check finds and reports the same if each difference is replaced by a sequence with its right operand, which may be left out, in front of the left one |
| Grammars.ReachesAsWell | tools/grammar_check.py:625-644 | what a view with fewer certainties takes to be reached, one with more does, too; views that see all rules alike reach the same |
| Grammars.MissedExactly | tools/grammar_check.py:600-657 | of any two views of which one sees no more steps than the other, the other finds that no rule gets back to itself exactly if the one does and no step that it misses is on a way from a rule back to it |
| GrammarSemantics.BelowRule | tools/grammar_check.py:625-644 | the rules that can be reached from the body of a rule that does not reach itself are fewer than from the rule, which is why matching ends |
| EndSets.UnionPositions | tools/grammar_check.py:289-294 | the union of representations stands for the union of positions |
| EndSets.Gather | tools/grammar_check.py:297-306 | so does gathering any number of them |
| EndSets.ContainsPosition | tools/grammar_check.py:315-316 | a representation contains exactly its positions |
| EndSets.EmptyIsNoEnds | tools/grammar_check.py:286 | comparing with the empty representation finds out whether there are no positions |
| EndSets.Last | tools/grammar_check.py:319-322 | the greatest position, if there is one |
| Matcher.Matcher.EndsOf | tools/grammar_check.py:341-393 | the ends are exactly where matches end if no rule gets back to itself and no wrong shortcut is used; an answer means that every rule the expression must begin with was answered there, and an error of left recursion names a rule that gets back to itself |
| Matcher.Matcher.EndsOfRef | tools/grammar_check.py:395-413 | memoisation keeps only right answers, the set of active rules is as before, also after an error, and a rule that must get back to itself is not answered |
| Matcher.Matcher.EndsOfSeq | tools/grammar_check.py:356-362 | stopping early at no ends is right |
| Matcher.Matcher.EndsOfAlt | tools/grammar_check.py:363-364 | the ends of all alternatives |
| Matcher.Matcher.EndsOfDiff | tools/grammar_check.py:365-370 | the ends of the left that are no ends of the right |
| Matcher.Matcher.EndsOfOpt | tools/grammar_check.py:371-372 | nothing, or a match |
| Matcher.Matcher.EndsOfIteration | tools/grammar_check.py:373-377 | the shortcut for repeating anything gives all positions, which are the ends exactly under the condition of `ShortcutExactly`; otherwise the loop finds them |
| Matcher.ShortcutExactly | tools/grammar_check.py:374-377 | the shortcut is right at all positions exactly if `char` or `token` matches each character or token by itself and, for `+`, never nothing |
| Matcher.Matcher.EndsOfLoop | tools/grammar_check.py:378-392 | the loop over the frontier ends with exactly the ends of the repetition |
| Matcher.Matcher.EndsOfRound | tools/grammar_check.py:382-391 | one round adds what one more match adds |
| Matcher.Matcher.EndsOfSet | tools/grammar_check.py:350-355 | a character is matched exactly if it is in the set, or not in a negated one |
| Matcher.Matcher.EndsOfLit | tools/grammar_check.py:345-349 | the end of a literal, in text or tokens; an empty one ends where it begins |
| GrammarLaws.LiteralIsText | tools/grammar_check.py:345-349 | on text a literal matches exactly itself |
| GrammarLaws.SelectorsDoNotMatter | tools/grammar_check.py:451-458 | a variation selector in a token makes no difference to literals, unless an identifier begins with it |
| GrammarLaws.LiteralMatchesText | tools/grammar_check.py:455-458 | a token without selectors is matched exactly by its text, and an identifier also by its first character |
| GrammarLaws.LiteralsJoin | tools/grammar_check.py:356-362 | literals one after the other match as one literal |
| GrammarLaws.OptionsAndIterations | tools/grammar_check.py:371-392 | an option is a choice with nothing, and an iteration at least once a match and then any number |
| GrammarLaws.DifferenceExcludes | tools/grammar_check.py:365-370 | a difference matches nothing that its right operand matches, and with it what the left one does |
| GrammarLaws.ComplementMatches | tools/grammar_check.py:350-355 | of a set and its complement exactly one matches each character |
| Matcher.SofarEnd | tools/grammar_check.py:391-392 | dropping frontier positions from the least unbounded end on loses no ends |
| Matcher.SafeRule | tools/grammar_check.py:402-411 | the body of a rule is safe to match with it: if a rule is entered again at the position at which it is being matched, it gets back to itself |
| Matcher.BegunRule | tools/grammar_check.py:402-413 | if the body of a rule was answered while the rule was not, the rule does not have to get back to itself, in text and in tokens |
| Matcher.InRangesBySearch | tools/grammar_check.py:261-263 | the binary search finds exactly the characters in the ranges |
| GrammarLemmas.IterateIntoClosed | tools/grammar_check.py:381-391 | a set that is closed under matching contains all ends of a repetition |
| GrammarLemmas.AnythingIterates | tools/grammar_check.py:374-377 | iterations of `char` or `token` reach every position from every position exactly if the rule matches each character or token by itself and, for `+`, never nothing |
| GrammarCheck.NormalizeRanges | tools/grammar_check.py:251-258 | merging keeps the characters and leaves ranges that neither overlap nor touch |
| GrammarCheck.EndsOfRule | tools/grammar_check.py:395-413 | a fresh matcher answers every rule of a grammar in which no rule gets back to itself, and exactly, if its shortcuts are right; a rule that must get back to itself is not answered, and an error of left recursion names one that does |
| GrammarCheck.Whole | tools/grammar_check.py:416-419 | decides whether the whole input matches, with the same errors |
| GrammarCheck.TextMatcher.Full | tools/grammar_check.py:422-428 | the cache keeps only right answers, so a string is full exactly if all of it matches the rule |
| GrammarCheck.TokenIsText | tools/grammar_check.py:395-401 | a token is matched by a lexical rule exactly if all of its text is; syntactic rules need not care whether lexical ones get back to themselves |
| GrammarCheck.MatchesWhole | tools/grammar_check.py:416-428 | if no rule gets back to itself, the matcher ends without an error, and decides whether the whole input matches if its shortcuts are right; on text that is so exactly if nothing is reported and no step on a way back is missed, and for tokens nothing is reported exactly if no rule gets back to itself and the check sees no step that there is not; a rule that must get back to itself gets no answer |
| GrammarCheck.AnswersAll | tools/grammar_check.py:402-411 | on any text or tokens, at any position, every rule is answered if no rule can get back to itself and only if none must; exactly then where what can be and what must be are the same |
| GrammarCheck.EmptyLiteralUnnoticed | tools/grammar_check.py:604-616 | a rule that gets back to itself behind an empty literal is not reported, and matching it fails with left recursion everywhere |
| GrammarCheck.CharIsNotAnything | tools/grammar_check.py:374-377 | of a grammar whose `char` is one letter nothing is reported, and the matcher answers with an end that is none |
| GrammarCheck.StarOfRepetition | tools/grammar_check.py:373-392 | matches one after the other, even of nothing, are a repetition |
| GrammarCheck.RepetitionOfStar | tools/grammar_check.py:373-392 | and every repetition is such a row of matches |
| Utf8.ValidIsScalar | s/utf8proc.c:169-171 | with wrap-around, the test accepts exactly the scalar values |
| Utf8.DecodesEncoded | s/utf8proc.c:121-167 | a code point is decoded exactly if the bytes begin with the encoding of that scalar value, with its length |
| Utf8.DecodeOfEncode | s/utf8proc.c:121-197 | decoding inverts encoding, whatever follows |
| Utf8.EncodeChar | s/utf8proc.c:173-197 | writes the encoding and nothing else |
| Utf8.IsString | s/Data.cpp:19-35 | data is accepted exactly if it is the encoding of a row of scalar values |
| Utf8.EncodingIsUnique | s/utf8proc.c:173-197 | different texts have different encodings |
| Reordering.Reorder | s/utf8proc.c:544-562 | the loop ends and leaves the canonical ordering |
| Reordering.CanonicalIsOrdered | s/utf8proc.c:553-554 | no neighbours are in the wrong order |
| Reordering.CanonicalIsPermutation | s/utf8proc.c:555-556 | nothing is added or lost |
| Reordering.StartersStay | s/utf8proc.c:553-554 | code points of class 0 keep their index |
| Reordering.StartersDivide | s/utf8proc.c:553-554 | what is in front of a code point of class 0 is ordered for itself, and nothing moves across it |
| Reordering.CanonicalIsStable | s/utf8proc.c:553-554 | code points of the same class keep their order |
| Reordering.SwapKeepsCanonical | s/utf8proc.c:555-556 | a swap does not change the canonical ordering |
| Reordering.SwapRemovesInversion | s/utf8proc.c:555-557 | a swap puts exactly one pair in order, so the loop ends although it steps back |
| GraphemeRules.StateMeans | s/utf8proc.c:289-315 | what the state remembers of all classes before |
| GraphemeRules.FoldedBreaksAreBoundaries | s/utf8proc.c:259-315 | folded from the start, the machine breaks exactly where the rules with their look-behind do |
| GraphemeRules.StringBreakDiffers | s/String.cpp:157-198 | at which positions a string is divided differently |
| GraphemeRules.StringBreaksAreBoundaries | s/String.cpp:159-188 | strings are divided as the rules say exactly if they do not begin with three indicators or a joined emoji |
| GraphemeText.Graphemes | s/String.cpp:157-198 | the graphemes of what can be decoded of any byte string, as byte strings, in order |
| GraphemeText.GraphemeSubstring | s/String.cpp:207-254 | the bytes of the graphemes from `from` on, as many as there are up to `length`, for all integers and all bytes |
| GraphemeText.SlicesJoin | s/String.cpp:207-254 | parts that follow each other make up one, and all graphemes are the string |
| GraphemeText.TextIsDecodable | s/utf8proc.c:121-167 | all of a valid string is decoded, to the text it encodes |
| GraphemeText.DecodableIsLongest | s/utf8proc.c:121-167 | of any bytes the longest text that they begin with is decoded |
| GraphemeText.ClustersJoin | s/String.cpp:178-197 | graphemes are not empty, and together they are the string |
| GraphemeText.ClustersBetween | s/String.cpp:222-252 | what is between two cuts is the graphemes between them |
| IntText.StringToInt | s/String.cpp:256-295 | for every base, a value exactly for an optional sign and digits below the base whose value fits 64 bits, `INT64_MIN` included |
| IntText.DigitIsPlace | s/String.cpp:256-295 | a digit has its place among the digits and letters as value, in either case, and nothing else is a digit |
| IntText.ParsedInEitherCase | s/String.cpp:256-295 | a text stands for the same integer in either case |
| IntText.OnlyDigits | s/String.cpp:256-295 | only digits below the base are read, behind one sign at most; a plus makes no difference |
| IntText.IntToString | s/Integer.cpp:25-48 | sign and digits fill the buffer exactly, in every base from 2 on |
| IntText.WriteDigits | s/Integer.cpp:39-42 | the digits are at the end of the buffer |
| IntText.CountDigits | s/Integer.cpp:30-33 | the truncating division counts the digits |
| IntText.DigitsAreValue | s/Integer.cpp:40-42 | the digits have the value of the number |
| IntText.RereadIsSame | s/Integer.cpp:41 | digits are read as the same number exactly if all are below 32 |
| IntText.ReadsPrinted | s/Integer.cpp:25-48 | reading inverts printing exactly if no digit is 32 or more, so in all bases up to 32 |
| IntText.MissingLetter | s/Integer.cpp:41 | in each larger base some integer is not read back |
| Framing.Take | LanguageServer/JsonRpc.cpp:44-117 | a result removes something from the buffer, so taking messages ends |
| Transport.Transport.TakeMessage | LanguageServer/JsonRpc.cpp:44-66 | the transport does what the specification of framing says, whether it skips a header, looks for the next one or neither |
| Transport.Transport.Read | LanguageServer/JsonRpc.cpp:119-140 | returns the next message of those that are taken from the chunks as they arrive; a timeout or an interruption changes nothing |
| Transport.Transport.ReadAll | LanguageServer/JsonRpc.cpp:119-140 | reading until the input ends yields all messages that are taken after each chunk, in order |
| Transport.Transport.TakeAtHeader | LanguageServer/JsonRpc.cpp:67-117 | complete, incomplete or invalid, and what is left of the buffer |
| Transport.Transport.ReadHeader | LanguageServer/JsonRpc.cpp:77-106 | a length exactly if there is one Content-Length line and it is accepted |
| Transport.Transport.ReadLength | LanguageServer/JsonRpc.cpp:89-100 | the value without blanks around it, if it is a length |
| Transport.Transport.ReadNumber | LanguageServer/JsonRpc.cpp:94-99 | only digits, and no more than the limit; no overflow |
| FramingProofs.FieldInAnyCase | LanguageServer/JsonRpc.cpp:84-88 | a line is the field exactly if it begins with the name of the field in whatever case |
| FramingProofs.LengthExactly | LanguageServer/JsonRpc.cpp:89-100 | a value is a length exactly if it is the decimal number, with any zeros in front, and not too large |
| FramingProofs.LengthAmongLines | LanguageServer/JsonRpc.cpp:77-106 | the length is found among other fields, in any place, whatever the case of the name and the blanks around the number |
| FramingProofs.OnlyOneField | LanguageServer/JsonRpc.cpp:77-110 | a header without the field, or with more than one, is refused |
| FramingProofs.TakeAppend | LanguageServer/JsonRpc.cpp:44-117 | what is taken does not depend on whether more has arrived |
| FramingProofs.TakeAgain | LanguageServer/JsonRpc.cpp:44-117 | looking again without new input finds nothing and leaves the same |
| FramingProofs.ChunksDoNotMatter | LanguageServer/JsonRpc.cpp:122-140 | for streams whose headers fit, results, resynchronisation and what is left do not depend on the chunks |
| FramingProofs.SessionFromEmpty | LanguageServer/JsonRpc.cpp:119-140 | what is read from the start is what is taken after each chunk |
| FramingProofs.FitsExactly | LanguageServer/JsonRpc.cpp:69-76 | a message with any accepted header comes out of all divisions into chunks exactly if the header fits |
| FramingProofs.RefusedExactly | LanguageServer/JsonRpc.cpp:44-117 | a stream that begins with a refused header gives the same in all divisions into chunks exactly if the header fits, or what follows is read alike by a transport that looks for a field in it and one that does not |
| FramingProofs.RecoversAfterRefused | LanguageServer/JsonRpc.cpp:44-57 | behind a refused header and its body, up to the next field, written messages are read again, in order |
| FramingProofs.LongHeader | LanguageServer/JsonRpc.hpp:29-30 | there are accepted headers of any length |
| FramingProofs.TakeFrame | LanguageServer/JsonRpc.cpp:155-156 | a written message is taken as it is exactly if it is not too large |
| FramingProofs.RoundTrip | LanguageServer/JsonRpc.cpp:151-156 | written messages come out in order, and the buffer is empty, however they are divided |
| Scheduling.Server.Schedule | LanguageServer/Server.cpp:399-413 | the earlier time is kept |
| Scheduling.Server.TimeToNextCheck | LanguageServer/Server.cpp:415-423 | waits for ever exactly if nothing is scheduled, and otherwise until the earliest check, or not at all if that is due |
| Scheduling.Server.RunChecks | LanguageServer/Server.cpp:425-437 | exactly what was due is not scheduled anymore and has the files that its check found, nothing waits for it, and no request is lost |
| Scheduling.Server.Check | LanguageServer/Server.cpp:439-460 | a check that succeeds stores the files of the package, one that fails leaves what was known; what waited is answered or waits for another scheduled root, also if the check fails |
| Scheduling.Server.Defer | LanguageServer/Server.cpp:462-473 | a request is stored exactly if the check of its package is pending |
| Scheduling.Server.HandleDeferrable | LanguageServer/Server.cpp:710-714 | a request is answered once or waits, not both |
| Scheduling.Server.AnswerDeferred | LanguageServer/Server.cpp:475-494 | all that waited is answered once or waits for another scheduled root |
| Scheduling.Server.AnalysisFor | LanguageServer/Server.cpp:558-569 | a pending check is run and not pending anymore, and what it found is stored |
| Scheduling.Server.DropRoot | LanguageServer/Server.cpp:385-393 | the root is not scheduled anymore; nothing is forgotten exactly if removing the diagnostics works or nothing waits for the root |
| Scheduling.Server.LeaveRoot | LanguageServer/Server.cpp:375-381 | a root left behind is checked at once if a document still has it, and dropped otherwise; it fails exactly if it is dropped and publishing fails |
| Scheduling.Server.UpdateRoots | LanguageServer/Server.cpp:360-383 | every open document has its root, roots that changed are checked at once; it fails exactly if a root that was left and is not open anymore cannot be dropped, and only what waited for such a root is forgotten |
| Scheduling.Server.ScheduleRootsContaining | LanguageServer/Server.cpp:319-327 | the document's root and all open roots that include it are scheduled in time, at exactly this time unless they were due before, and nothing else is |
| Scheduling.Server.DidOpen | LanguageServer/Server.cpp:281-294 | the document's root and all roots that changed are scheduled now; it fails exactly if a root that was left and is not open anymore cannot be dropped, and only what waited for that is forgotten; without a failure exactly what `Scheduling.Plan.Next` says is due, and known of packages |
| Scheduling.Server.DidChange | LanguageServer/Server.cpp:296-317 | the document's root and all packages with the document are scheduled at the latest after the delay; it fails exactly if a root that was left and is not open anymore cannot be dropped, and only what waited for that is forgotten; without a failure exactly what `Scheduling.Plan.Next` says is due, and known of packages |
| Scheduling.Server.DidSave | LanguageServer/Server.cpp:329-337 | changed roots and all packages with the document are scheduled now; it fails exactly if a root that was left and is not open anymore cannot be dropped, and only what waited for that is forgotten; without a failure exactly what `Scheduling.Plan.Next` says is due, and known of packages |
| Scheduling.Server.DidClose | LanguageServer/Server.cpp:339-354 | the document is gone, and its root is dropped or checked at once; it fails exactly if a root that was left and is not open anymore cannot be dropped, and only what waited for that is forgotten; without a failure exactly what `Scheduling.Plan.Next` says is due, and known of packages |
| Scheduling.Server.RequestDeferrable | LanguageServer/Server.cpp:761-764 | a request whose check is pending is not answered before it |
| Scheduling.Server.RequestAtPosition | LanguageServer/Server.cpp:544-556 | the request is answered, after the pending check, or at once if its position is malformed, and nothing waits for that check anymore |
| Scheduling.Server.Handle | LanguageServer/Server.cpp:107-114 | a message fails exactly if it must drop a root that cannot be dropped, which follows from the documents and roots before it, and only what waited for such a root is forgotten; otherwise checks are due exactly as `Scheduling.Plan.Next` says, and if it fails nothing is forgotten of packages with open documents |
| Scheduling.Server.Run | LanguageServer/Server.cpp:74-117 | over any row of messages and timeouts, failing ones included, every received request is answered once or waits; a request is forgotten at a boundary exactly if some message failed to drop a root with waiting requests, and not if none waits for the roots that it must drop and cannot |
| Scheduling.Server.NothingWaits | LanguageServer/Server.cpp:415-418 | when the server waits for ever, every request was answered exactly once |
| Scheduling.ChangeLeadsToCheck | LanguageServer/Server.cpp:319-327 | over any row of messages: once a check has found a file in a package, a change or saving of the file schedules the package in time, as long as a document belongs to it and no later check finds otherwise |
| Scheduling.StepKeeps | LanguageServer/Server.cpp:360-393 | no message, a failing one neither, forgets the files of a package with an open document |
| Scheduling.CheckFinds | LanguageServer/Server.cpp:439-450 | after a check that succeeds the package has the files that the check found, and is not due |
| Scheduling.TypingIsCheckedInTime | LanguageServer/Server.cpp:399-413 | however often a document is changed, its package is due 250 ms after the first change, neither before nor later, unless it was due before |
| Positions.LineIndex.constructor | LanguageServer/Positions.cpp:14-28 | the line starts are exactly 0 and what follows a line end; the ends are in front of the line breaks |
| Positions.LineIndex.FindLines | LanguageServer/Positions.cpp:14-28 | the same of the loop |
| Positions.LineIndex.LineBounds | LanguageServer/Positions.cpp:54-60 | lines lie within the text and end before the next one starts |
| Positions.LineIndex.LinesHaveNoBreaks | LanguageServer/Positions.cpp:14-28 | no line has a character of a line break, and lines are divided by an LF, a CR or both |
| Positions.LineIndex.CompilerCounts | LanguageServer/Positions.cpp:30-52 | the compiler counts lines and characters from 1, and characters begin again behind a line end |
| Positions.LineIndex.ClientCounts | LanguageServer/Positions.cpp:98-109 | the client counts from 0 |
| Positions.LineIndex.BehindTheEnd | LanguageServer/Positions.cpp:98-109 | positions behind the end of a line are moved there, and lines behind the last one to the end of the text |
| Positions.LineIndex.CompilerRoundTrip | LanguageServer/Positions.cpp:30-52 | the compiler's position of every offset up to the end leads back to it |
| Positions.LineIndex.ClientRoundTrip | LanguageServer/Positions.cpp:98-109 | so does the client's, but for the second character of a line break, which becomes the first |
| Positions.LineIndex.ToClient | LanguageServer/Positions.cpp:74-86 | the units in front of a code point; positions behind the end are moved there |
| Positions.LineIndex.ToCodePoint | LanguageServer/Positions.cpp:88-96 | the first code point at or behind a position |
| Positions.ClientCodePoint | LanguageServer/Positions.cpp:74-96 | a code point is found again at its position, in all encodings |
| Encodings.UnitsAre16 | LanguageServer/Positions.cpp:62-72 | the UTF-16 units of a text are those it is encoded with |
| Encodings.Decodes16 | LanguageServer/Positions.cpp:66-67 | that encoding can be decoded, and all units fit 16 bits |
| Encodings.UnitsAre8 | LanguageServer/Positions.cpp:68-69 | the UTF-8 units of a text are its bytes |
| Encodings.UnitsAre32 | LanguageServer/Positions.cpp:64-65 | the UTF-32 units of a text are its code points |
| SemanticTokens.SemanticTokens | LanguageServer/SemanticTokens.cpp:204-244 | the numbers encode the pieces of the classified tokens |
| SemanticTokens.Writer.Emit | LanguageServer/SemanticTokens.cpp:214-227 | a piece that is not empty for the client is added |
| SemanticTokens.Writer.Write | LanguageServer/SemanticTokens.cpp:234-241 | a token is divided at its line breaks |
| SemanticTokens.PiecesAreTokens | LanguageServer/SemanticTokens.cpp:229-242 | a code point of a line is in a piece of a kind exactly if it is in a token of that kind |
| SemanticTokens.PiecesAreOrdered | LanguageServer/SemanticTokens.cpp:229-242 | pieces are in order, do not overlap and lie within their tokens |
| SemanticTokens.DecodeOfEncode | LanguageServer/SemanticTokens.cpp:220-226 | no subtraction underflows, and decoding gives back the absolute tokens exactly if all numbers fit 32 bits |
| SemanticTokens.OrderedPairs | LanguageServer/SemanticTokens.cpp:217-219 | of any two tokens told the later one follows the earlier one, and none is empty |
| SemanticTokens.ClientReads | LanguageServer/SemanticTokens.cpp:204-244 | what the client decodes is in order without overlaps, and it is the pieces, in its units, exactly if all numbers fit |
| PercentEncoding.PercentEncode | LanguageServer/Positions.cpp:118-132 | unreserved characters as they are, in paths of files slashes, too, and others as two hexadecimal digits |
| PercentEncoding.PercentDecode | LanguageServer/Positions.cpp:155-189 | what the loops decode, for all texts; in URIs of files escapes need digits |
| PercentEncoding.DecodeOfEncode | LanguageServer/Positions.cpp:118-204 | decoding inverts encoding, of URIs in paths and of paths in URIs |
| PercentEncoding.EncodeIsInjective | LanguageServer/Positions.cpp:151-153 | different texts never have the same encoding |
| PercentEncoding.EncodedIsPortable | LanguageServer/Positions.cpp:118-132 | only unreserved characters, percent signs, and slashes in paths are written, and unreserved text stays as it is |
| PercentEncoding.DecodeEscape | LanguageServer/Positions.cpp:111-116 | an escape with digits of either case is the byte |
| PercentEncoding.DecodePercent | LanguageServer/Positions.cpp:155-163 | in URIs of files a percent sign without digits stands for itself |
| PercentEncoding.UriToPath | LanguageServer/Positions.cpp:145-171 | the path of any URI: of a file, without its authority, or one that is made up, or none for a snapshot |
| PercentEncoding.PathToUri | LanguageServer/Positions.cpp:173-205 | the URI of any path: what is in a path that was made up, or the URI of a file |
| PercentEncoding.VirtualRoundTrip | LanguageServer/Positions.cpp:147-190 | a document that is not a file has its URI back from its path |
| PercentEncoding.VirtualIsInjective | LanguageServer/Positions.cpp:151-153 | different documents that are not files never share a path |
| PercentEncoding.FileRoundTrip | LanguageServer/Positions.cpp:154-204 | the URI of an absolute path that was not made up leads back to what the file system makes of this path |
| PercentEncoding.HostIsDropped | LanguageServer/Positions.cpp:164-170 | the host in the URI of a file is dropped |

## Left out

Members that state less than the code's purpose:

- PathSoundness.AllSound: of certain uses only those are covered that no expression records in an operand that may be skipped; the others are recorded too early (see above).
- Structure.LocalExactlyOnRuns: not for bodies that control may leave early: a local variable that is initialized on all ways but those that return is deliberately not certain (Compiler/Analysis/PathAnalyser.cpp:31-35). What is certain is stated by Structure.GivenExactly for all bodies.
- FramingProofs.ChunksDoNotMatter: of streams with a header that is too long, only those with one such header, at their beginning, have an exact condition (FramingProofs.FitsExactly, FramingProofs.RefusedExactly).
- IntText.IntToString: not for `INT64_MIN`, whose absolute value is undefined in C++, and not for bases below 2, in which nothing can be printed (0 is divided by, 1 never ends, and below 0 part of the buffer stays unwritten).
- Matcher.Matcher.EndsOfSet: exact for ranges in order, which GrammarCheck.NormalizeRanges leaves.
- GrammarCheck.MatchesWhole: rules must be defined, which the rest of the well-formedness check sees to. Of a grammar whose `char` or `token` does not mean anything, and is iterated, it is only stated which ends the shortcut gives and when they are right (Matcher.ShortcutExactly).
- GrammarCheck.TokenIsText: what matches a text is only defined for grammars in which no rule can get back to itself.
- Scheduling.Server.Handle: that the checker may throw when it looks for the includes or the root of a document (LanguageServer/Server.cpp:290, 311, 364), after which a document may be open without a root, is not modelled; both are parameters of each message.

What the model does not have:

- Compiler: LLVM values, types and branch weights, temporary objects, type checking, closures, error-prone calls inside expressions, the value an initializer returns, and `ASTForIn`, which generates the block it was turned into; which variables an expression reads is a parameter.
- Compiler: the fields that blocks get during analysis are in the block that the analysis returns, not updated in place; the conditions and blocks of an if statement are one linked chain; the parent pointers of branches are the path from the main branch.
- Compiler: that a declaration takes an id that no variable in scope has, and that assignments name variables in scope, is taken from the scoper (Compiler/Scoping/Scope.cpp:22-25, Compiler/Scoping/SemanticScoper.cpp:57-59).
- Runtime: objects on the stack, literals, released weak references, memory orders (steps are interleaved), counts beyond 32 bits, and type information with more than 16-bit counts; pointers to type information are records.
- Runtime: the mutexes of the interning maps; the mixing of the hash is a parameter.
- Grammar checker: reading grammar files, the lexer, and the order in which Python iterates sets.
- Text: NUL-terminated input, decomposition itself, and the Unicode property tables (boundary and combining classes are arbitrary functions).
- Language server: file descriptors, JSON and its nesting depth, the contents of analyses, diagnostics and answers; time is an integer, and what the server learns from outside is a parameter of each message.
- Language server: the lexer and the classification of tokens; tokens are sorted and disjoint. What the file system makes of a path is a parameter.

/** Compiles a function: analyses its body, then generates it. */
module Compiler {
  import opened Wrappers
  import opened Syntax
  import opened Semantics
  import opened PathAnalysis
  import opened Acceptance
  import opened Reads
  import opened EarlyReads
  import opened IR
  import opened Lowering
  import opened Compilation
  import opened Analyser
  import opened Generator

  /**
   The graph that is built keeps everything that is proved about compiled functions. A function that
   passes never reads a variable that is not initialized, and it passes if nothing is wrong with what
   it reads.
   */
  method CompileFunction(body: seq<Stmt>, begun: set<Incident>, returnsValue: bool, read: ReadsOf, ghost scope: set<nat>)
      returns (status: Status, compiled: Option<RawBuilder>)
    ensures Reports(status, AllErrors(Start(begun), body, read))
    ensures status.Passed? <==> forall i | AboutVariable(i) && i !in begun :: AllWrongs(body, i, read, false) == {}
    ensures status.Rejected? ==> exists i :: AboutVariable(i) && i !in begun && status.error in AllWrongs(body, i, read, false)
    ensures compiled == if status.Passed? then Compile(body, begun, returnsValue) else None
    ensures Scoped(body, begun, scope) && status.Passed? ==> forall answers :: AllFinds(body, Initially(begun, answers), read)
    ensures Scoped(body, begun, scope) && compiled.Some? ==> WellFormed(compiled.value.blocks, compiled.value.layout)
  {
    hide WellFormed, AnalyseBlock, LowerBlock, Scoped, AllErrors, AllFinds, AllWrongs;
    compiled := None;
    ErrorsExactly(body, begun, read);
    var analyser := new PathAnalyser();
    RecordAll(analyser, begun);
    var block :- AnalyseStatements(analyser, Fresh(body), read);
    if Scoped(body, begun, scope) {
      forall answers ensures AllFinds(body, Initially(begun, answers), read) {
        NeverReadsEarly(body, begun, scope, read, answers);
      }
    }
    if !block.returned {
      if returnsValue {
        return Passed, None;
      }
      block := Block(block.stmts + [Return(None)], true, |block.stmts| + 1);
    }
    var fg := new FunctionGenerator();
    GenerateBlock(fg, block);
    status, compiled := Passed, Some(RawBuilder(fg.blocks, fg.layout, fg.at));
    if Scoped(body, begun, scope) {
      CompiledWellFormed(body, begun, scope, returnsValue);
    }
  }
}

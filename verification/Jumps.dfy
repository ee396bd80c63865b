/** Where the patched jumps and calls of generated code lead, wherever the code stands and whatever the program. */
module Jumps {
  import opened Words
  import opened Ast
  import opened Opcodes
  import opened Instructions
  import opened Codegen
  import opened Correctness
  import opened Linking
  import Safety

  /** At position i stands a jump to the target. */
  ghost predicate JumpsTo(code: seq<byte>, i: nat, op: byte, target: int) {
    i + 3 <= |code| && code[i] == op && Safety.JumpTarget(code, i) == target
  }

  lemma JumpGoes(code: seq<byte>, i: nat, op: byte, offset: int)
    requires op in {JMP, JMP_IF_FALSE} && -0x8000 <= offset < 0x8000 && At(code, i, [op] + I16Bytes(offset))
    ensures JumpsTo(code, i, op, i + 1 + offset)
  {
    hide I16At, I16Bytes;
    AtOpcode(code, i, op, I16Bytes(offset));
    I16RoundTrip(code, i + 1, offset);
  }

  lemma SkipGoes(code: seq<byte>, pc: nat, c: seq<byte>, offset: int)
    requires -0x8000 <= offset < 0x8000 && At(code, pc, c + ([JMP_IF_FALSE] + I16Bytes(offset)))
    ensures At(code, pc, c) && JumpsTo(code, pc + |c|, JMP_IF_FALSE, pc + |c| + 1 + offset)
  {
    hide At, I16Bytes, JumpsTo;
    AtSplit(code, pc, c, [JMP_IF_FALSE] + I16Bytes(offset));
    JumpGoes(code, pc + |c|, JMP_IF_FALSE, offset);
  }

  /** An if without else: the condition, then a jump on 0 over the body to the end of the statement. */
  lemma IfThenJumps(code: seq<byte>, pc: nat, s: Stmt, env: Env)
    requires s.IfThen? && GenStmt(s, env).Ok? && At(code, pc, GenStmt(s, env).value)
    ensures GenExpr(s.cond, env).Ok? && GenStmts(s.thn, env).Ok?
    ensures var c, thn, end := GenExpr(s.cond, env).value, GenStmts(s.thn, env).value, pc + |GenStmt(s, env).value|;
            && At(code, pc, c)
            && JumpsTo(code, pc + |c|, JMP_IF_FALSE, end)
            && At(code, pc + |c| + 3, thn) && pc + |c| + 3 + |thn| == end
  {
    hide GenExpr, GenStmts, I16Bytes, At, JumpsTo;
    var c, thn := GenExpr(s.cond, env).value, GenStmts(s.thn, env).value;
    AtSplit(code, pc, c + ([JMP_IF_FALSE] + I16Bytes(2 + |thn|)), thn);
    SkipGoes(code, pc, c, 2 + |thn|);
  }

  /**
   With else: the jump on 0 goes to the else branch, and the one behind the first branch to the end of the
   statement.
   */
  lemma IfElseJumps(code: seq<byte>, pc: nat, s: Stmt, env: Env)
    requires s.IfElse? && GenStmt(s, env).Ok? && At(code, pc, GenStmt(s, env).value)
    ensures GenExpr(s.cond, env).Ok? && GenStmts(s.thn, env).Ok? && GenStmts(s.els, env).Ok?
    ensures var c, thn, els := GenExpr(s.cond, env).value, GenStmts(s.thn, env).value, GenStmts(s.els, env).value;
            var over, end := pc + |c| + 3 + |thn|, pc + |GenStmt(s, env).value|;
            && At(code, pc, c)
            && JumpsTo(code, pc + |c|, JMP_IF_FALSE, over + 3)
            && At(code, pc + |c| + 3, thn)
            && JumpsTo(code, over, JMP, end)
            && At(code, over + 3, els) && over + 3 + |els| == end
  {
    hide GenExpr, GenStmts, I16Bytes, At, JumpsTo;
    IfElseLayout(code, pc, s, env);
    var c, thn, els := GenExpr(s.cond, env).value, GenStmts(s.thn, env).value, GenStmts(s.els, env).value;
    SkipGoes(code, pc, c, 2 + |thn| + 3);
    JumpGoes(code, pc + |c| + 3 + |thn|, JMP, 2 + |els|);
  }

  /** A loop: the jump on 0 leaves the statement, and the one behind the body goes back to the condition. */
  lemma WhileJumps(code: seq<byte>, pc: nat, s: Stmt, env: Env)
    requires s.While? && GenStmt(s, env).Ok? && At(code, pc, GenStmt(s, env).value)
    ensures GenExpr(s.cond, env).Ok? && GenStmts(s.body, env).Ok?
    ensures var c, body := GenExpr(s.cond, env).value, GenStmts(s.body, env).value;
            var back, end := pc + |c| + 3 + |body|, pc + |GenStmt(s, env).value|;
            && At(code, pc, c)
            && JumpsTo(code, pc + |c|, JMP_IF_FALSE, end)
            && At(code, pc + |c| + 3, body)
            && JumpsTo(code, back, JMP, pc) && back + 3 == end
  {
    hide GenExpr, GenStmts, I16Bytes, At, JumpsTo;
    WhileLayout(code, pc, s, env);
    var c, body := GenExpr(s.cond, env).value, GenStmts(s.body, env).value;
    SkipGoes(code, pc, c, 2 + |body| + 3);
    JumpGoes(code, pc + |c| + 3 + |body|, JMP, -(|c| + 3 + |body| + 1));
  }

  /** A call is stores and then CALL with the address of the callee, at which the callee's code stands in the image. */
  lemma CallGoes(code: seq<byte>, pc: nat, name: string, k: nat, env: Env)
    requires CallCode(name, k, env).Ok? && At(code, pc, CallCode(name, k, env).value)
    ensures name in env.funs && name in env.addrs && StoreArgs(env.funs[name].locals, k).Ok?
    ensures var call := pc + |StoreArgs(env.funs[name].locals, k).value|;
            && At(code, pc, StoreArgs(env.funs[name].locals, k).value)
            && call + 3 == pc + |CallCode(name, k, env).value| <= |code|
            && code[call] == CALL && U16At(code, call + 1) == env.addrs[name]
  {
    hide U16At, U16Bytes, StoreArgs;
    var stores, addr := StoreArgs(env.funs[name].locals, k).value, U16Bytes(env.addrs[name]);
    assert stores + [CALL] + addr == stores + ([CALL] + addr);
    hide At;
    AtSplit(code, pc, stores, [CALL] + addr);
    AtOpcode(code, pc + |stores|, CALL, addr);
    AtIs(code, pc + |stores| + 1, addr);
    U16RoundTrip(code, pc + |stores| + 1, env.addrs[name]);
  }

  lemma AtIs(code: seq<byte>, pc: nat, s: seq<byte>)
    requires At(code, pc, s)
    ensures pc + |s| <= |code| && code[pc..pc + |s|] == s
  {
  }
}

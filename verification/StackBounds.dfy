/** When the operand stack of a compiled program is large enough, for every budget and whatever the world replies. */
module StackBounds {
  import opened Words
  import opened Ast
  import opened Grammar
  import opened Tokens
  import opened Names
  import opened Codegen
  import opened Semantics
  import opened Sema
  import opened Compiler
  import opened StackNeed
  import opened StackExact
  import opened Accepted
  import MachineLaws
  import Linking
  import M = Machine

  /** A tick that neither overflows the operand stack nor lets a handler push past its end. */
  ghost predicate StackSuffices<W(!new)>(p: Program, h: M.Handler<W>, st: Store<W>, b: nat)
    requires Compiles(p) && |st.locals| == M.MAX_LOCALS
  {
    && RunTick(p, h, st, b).status !in {M.StackOverflow, M.StackOverrun}
    && MachineLaws.RunFits(Compiler.Binary(p), Some(h), Linking.Start(st), b)
  }

  /** What main needs, itself in one of the 32 frames. */
  ghost function MainPeak(p: Program): nat {
    var defs := Linking.DefsOf(p.functions);
    if "main" in defs then PeakBody(defs, defs["main"].body, M.MAX_CALL_DEPTH - 1) else 0
  }

  /** A compile-time bound: a program whose peak is at most 256 has stack enough in every tick. */
  lemma PeakSuffices<W(!new)>(p: Program, h: M.Handler<W>, st: Store<W>, b: nat)
    requires InScope(p, h) && |st.locals| == M.MAX_LOCALS && MainPeak(p) <= M.MAX_STACK
    ensures StackSuffices(p, h, st, b)
  {
    hide M.Run, Generate, Analyze, ProgramInFragment, MachineLaws.RunFits, PeakBody, Exec, Linking.DefsOf;
    hide M.WellBehaved;
    TickCorrect(p, h, st, b);
    TickFits(p, h, st, b);
    var c := Meaning(p, h);
    if "main" in c.defs && "main" in c.funs && b >= 1 {
      ExecInRoom(c, c.funs["main"].locals, c.defs["main"].body, st, 0, 1, b - 1);
    }
  }

  /**
   And for a straight main, which neither branches nor calls functions and divides nothing, it is exactly the condition:
   with budget enough, the stack is large enough if and only if the peak is at most 256.
   */
  lemma StraightMainExactly<W(!new)>(p: Program, h: M.Handler<W>, st: Store<W>, b: nat)
    requires InScope(p, h) && |st.locals| == M.MAX_LOCALS
    requires "main" in Meaning(p, h).defs && "main" in Meaning(p, h).funs
    requires var main := Meaning(p, h).defs["main"].body;
             Straight(Meaning(p, h).funs["main"].locals, main) && b >= StraightCost(main) + 1
    ensures StackSuffices(p, h, st, b) <==> MainPeak(p) <= M.MAX_STACK
  {
    hide M.Run, Generate, Analyze, ProgramInFragment, MachineLaws.RunFits, PeakBody, Exec, Linking.DefsOf;
    hide M.WellBehaved, Straight, StraightCost;
    var c := Meaning(p, h);
    StraightRunsExactly(c, c.funs["main"].locals, c.defs["main"].body, st, 1, b - 1);
    assert MainPeak(p) == PeakBody(c.defs, c.defs["main"].body, CallsLeft(1));
    hide InScope, MainPeak;
    if MainPeak(p) <= M.MAX_STACK {
      PeakSuffices(p, h, st, b);
    } else {
      TickCorrect(p, h, st, b);
    }
  }

  /** So it is when no frame needs more than 8 slots, however the functions call each other. */
  lemma SmallFramesSuffice<W(!new)>(p: Program, h: M.Handler<W>, st: Store<W>, b: nat)
    requires InScope(p, h) && |st.locals| == M.MAX_LOCALS && FramesAtMost(Linking.DefsOf(p.functions), 8)
    ensures StackSuffices(p, h, st, b)
  {
    hide InScope, StackSuffices, PeakBody, Linking.DefsOf;
    var defs := Linking.DefsOf(p.functions);
    if "main" in defs {
      PeakBodyByFrames(defs, defs["main"].body, M.MAX_CALL_DEPTH - 1, 8);
    }
    PeakSuffices(p, h, st, b);
  }

  /** And when main calls no functions and its expressions nest at most 42 deep, however long their operator chains. */
  lemma ShallowMainSuffices<W(!new)>(p: Program, h: M.Handler<W>, st: Store<W>, b: nat)
    requires InScope(p, h) && |st.locals| == M.MAX_LOCALS
    requires "main" in Linking.DefsOf(p.functions) ==> AllShallow(Linking.DefsOf(p.functions)["main"].body, 42)
    ensures StackSuffices(p, h, st, b)
  {
    hide InScope, StackSuffices, PeakBody, Linking.DefsOf;
    var defs := Linking.DefsOf(p.functions);
    if "main" in defs {
      AllShallowPeak(defs, defs["main"].body, 42, M.MAX_CALL_DEPTH - 1);
    }
    PeakSuffices(p, h, st, b);
  }

  /**
   What the parser accepts with n levels of nesting left nests at most n deep; if it calls no function it needs at most
   6 n + 1 operands, or 6 n + 4 if it perceives.
   */
  lemma ParsedIsShallow(ts: seq<Token>, n: nat, defs: map<string, FunctionDef>, calls: nat)
    requires FromLexer(ts) && 1 <= n <= MAX_EXPR_DEPTH && ParseExpression(ts, MAX_EXPR_DEPTH - n).Ok?
    requires NoUserCall(ParseExpression(ts, MAX_EXPR_DEPTH - n).value.node)
    ensures var e := ParseExpression(ts, MAX_EXPR_DEPTH - n).value.node;
            ShallowExpr(e, n) && Peak(defs, e, calls) <= 6 * n + if NoSight(e) then 1 else 4
  {
    hide ParseExpression, Nesting, Consumes, Peak, NoSight, NoUserCall;
    ExpressionAccepted(ts, MAX_EXPR_DEPTH - n);
    ShallowExprPeak(defs, ParseExpression(ts, MAX_EXPR_DEPTH - n).value.node, n, calls);
  }
}

/** The compiler end to end: analyzed and generated programs run as their source means. */
module Compiler {
  import opened Words
  import opened Ast
  import opened Codegen
  import opened Semantics
  import opened Sema
  import opened SemaProperties
  import opened Linking
  import opened Correctness
  import opened MachineLaws
  import opened Safety
  import Gob
  import M = Machine

  /** Semantic analysis, then code generation. */
  ghost predicate Compiles(p: Program) {
    Analyze(p).Ok? && Generate(p, Analyze(p).value).Ok?
  }

  ghost function Binary(p: Program): M.Bytecode
    requires Compiles(p)
  {
    Loaded(Generate(p, Analyze(p).value).value)
  }

  ghost function Meaning<W>(p: Program, h: M.Handler<W>): Ctx<W>
    requires Compiles(p)
  {
    ContextOf(p, Analyze(p).value, h)
  }

  /** One tick of the VM from the start of the code. */
  ghost function RunTick<W>(p: Program, h: M.Handler<W>, st: Store<W>, b: nat): M.Outcome<W>
    requires Compiles(p) && |st.locals| == M.MAX_LOCALS
  {
    M.Run(Binary(p), Some(h), Start(st), b)
  }

  ghost predicate InScope<W(!new)>(p: Program, h: M.Handler<W>) {
    Compiles(p) && M.WellBehaved(h) && ProgramInFragment(Meaning(p, h))
  }

  /** A tick of a compiled program of the fragment is a tick of its source, for every store and every budget. */
  lemma TickCorrect<W(!new)>(p: Program, h: M.Handler<W>, st: Store<W>, b: nat)
    requires InScope(p, h) && |st.locals| == M.MAX_LOCALS
    ensures var r := RunTick(p, h, st, b);
            match Tick(Meaning(p, h), st, b)
            case Wrong => false
            case Abort(status, st', left) => Ends(r, status, st', left)
            case Done(result, st', left) =>
              && Ends(r, M.Halted, st', left)
              && r.state.frames == []
              && r.state.stack == if result.Some? then [result.value] else []
  {
    hide M.Run, Generate, Analyze, Tick, ProgramInFragment;
    AnalyzeGives(p);
    CompilerCorrect(p, Analyze(p).value, h, st, b);
  }

  /**
   So stack discipline holds: of the faults only these can occur, and never an underflow. StackOverrun and
   QuotientOverflow stand for the two places where the engine has no defined behaviour.
   */
  lemma FaultsOfTheFragment<W(!new)>(p: Program, h: M.Handler<W>, st: Store<W>, b: nat)
    requires InScope(p, h) && |st.locals| == M.MAX_LOCALS
    ensures RunTick(p, h, st, b).status == M.Halted || RunTick(p, h, st, b).status in FAULTS
  {
    hide M.Run, Generate, Analyze, Tick, ProgramInFragment;
    TickCorrect(p, h, st, b);
  }

  /**
   The handlers' unchecked pushes stay inside the stack array if and only if the source tick does not say otherwise.
   */
  lemma TickFits<W(!new)>(p: Program, h: M.Handler<W>, st: Store<W>, b: nat)
    requires InScope(p, h) && |st.locals| == M.MAX_LOCALS
    ensures var o := Tick(Meaning(p, h), st, b);
            RunFits(Binary(p), Some(h), Start(st), b) <==> !(o.Abort? && o.status == M.StackOverrun)
  {
    hide M.Run, Generate, Analyze, Tick, ProgramInFragment, RunFits;
    TickCorrect(p, h, st, b);
    RunFitsExactly(Binary(p), Some(h), Start(st), b);
  }

  /**
   A source tick that ends by itself has an exact cost, which is the smallest budget with which the VM ends as it
   does.
   */
  lemma TickCost<W(!new)>(p: Program, h: M.Handler<W>, st: Store<W>, a: nat, b: nat)
    requires InScope(p, h) && |st.locals| == M.MAX_LOCALS
    requires Tick(Meaning(p, h), st, a).Done?
    ensures var o := Tick(Meaning(p, h), st, a);
            var cost := a - o.left;
            var r := RunTick(p, h, st, b);
            if b >= cost then Ends(r, M.Halted, o.st, b - cost) else r.status == M.BudgetExhausted
  {
    hide M.Run, Generate, Analyze, Tick, ProgramInFragment;
    TickCorrect(p, h, st, a);
    ExactCost(Binary(p), Some(h), Start(st), a, b);
  }

  /** Whatever the program, a compiled tick stays on instruction boundaries and never runs into a bad instruction. */
  lemma TickSafe<W>(p: Program, h: Option<M.Handler<W>>, st: Store<W>, b: nat)
    requires Compiles(p) && |st.locals| == M.MAX_LOCALS
    ensures var r := M.Run(Binary(p), h, Start(st), b);
            r.status !in BAD && (r.status == M.BudgetExhausted ==> OnTrack(Binary(p).code, r.state))
  {
    hide M.Run, Generate, Analyze, OnTrack;
    AnalyzeGives(p);
    CompiledCodeSafe(p, Analyze(p).value, h, st.locals, st.world, b);
  }

  /** Writing the compiled program to a .gob file and loading it gives the bytecode that the theorems above run. */
  lemma ShippedBytecode(p: Program)
    requires Compiles(p)
    ensures var out := Generate(p, Analyze(p).value).value;
            var blob := Gob.Emit(out.code, out.localCount, []);
            blob.Some? && Gob.Load(blob.value) == Ok(Binary(p)) && Binary(p).localCount <= M.MAX_LOCALS
  {
    hide Generate, Analyze, Gob.Load, Gob.Emit;
    var out := Generate(p, Analyze(p).value).value;
    var prefix, image := GeneratedShape(p, Analyze(p).value);
    Gob.LoadInvertsEmit(out.code, out.localCount, []);
    EmittedWhenFits(out);
  }

  lemma EmittedWhenFits(out: Output)
    requires |out.code| <= 65535 && out.localCount <= 256
    ensures Gob.Emit(out.code, out.localCount, []).Some? && Gob.IntConsts([]) == []
  {
  }

  // ---- Many ticks: the locals are the memory of an agent ----

  /** The store that a source tick leaves, however it ends. */
  function AfterTick<W>(c: Ctx<W>, st: Store<W>, b: nat): (r: Store<W>)
    requires |st.locals| == M.MAX_LOCALS
    ensures |r.locals| == M.MAX_LOCALS
  {
    var o := Tick(c, st, b);
    if o.Wrong? then st else o.st
  }

  /** The locals after the given ticks of the source program; the world of each tick is what it has become by then. */
  function SourceMemory<W>(c: Ctx<W>, locals: seq<int32>, worlds: seq<W>, b: nat): seq<int32>
    requires |locals| == M.MAX_LOCALS
    decreases |worlds|
  {
    if worlds == [] then locals
    else SourceMemory(c, AfterTick(c, Store(locals, worlds[0]), b).locals, worlds[1..], b)
  }

  /** The locals after the given ticks of one VM that is reset before each of them. */
  ghost function BrainMemory<W>(bc: M.Bytecode, h: M.Handler<W>, s: M.State<W>, worlds: seq<W>, b: nat): seq<int32>
    requires |s.locals| == M.MAX_LOCALS
    decreases |worlds|
  {
    if worlds == [] then s.locals
    else
      var ready := M.ResetForTick(s.(world := worlds[0]));
      BrainMemory(bc, h, M.Run(bc, Some(h), ready, b).state, worlds[1..], b)
  }

  /**
   A bytecode brain remembers exactly what the source program would: from whatever state the VM is in, over any number
   of ticks and whatever happens to the world in between, even when ticks end in faults or run out of budget.
   */
  lemma {:induction false} BrainRemembers<W(!new)>(p: Program, h: M.Handler<W>, s: M.State<W>, worlds: seq<W>, b: nat)
    requires InScope(p, h) && |s.locals| == M.MAX_LOCALS
    ensures BrainMemory(Binary(p), h, s, worlds, b) == SourceMemory(Meaning(p, h), s.locals, worlds, b)
    decreases |worlds|
  {
    hide M.Run, Generate, Analyze, Tick, ProgramInFragment;
    if worlds != [] {
      var st := Store(s.locals, worlds[0]);
      assert M.ResetForTick(s.(world := worlds[0])) == Start(st);
      TickCorrect(p, h, st, b);
      BrainRemembers(p, h, RunTick(p, h, st, b).state, worlds[1..], b);
    }
  }
}

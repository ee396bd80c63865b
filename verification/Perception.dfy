/** What the perception sugar of the language leaves on the stack, against what it promises. */
module Perception {
  import opened Words
  import opened Ast
  import opened Opcodes
  import opened Machine
  import opened Codegen
  import opened Instructions

  /** The place of the promised value among terrain, food, water and agents. */
  function AspectOf(b: Builtin): (i: nat)
    requires SugarCode(b).Some?
    ensures i < 4
  {
    match b
    case PerceiveTerrain => 0
    case LookTerrain => 0
    case PerceiveFood => 1
    case LookFood => 1
    case PerceiveWater => 2
    case LookWater => 2
    case _ => 3
  }

  function SenseOf(b: Builtin): Intrinsic
    requires SugarCode(b).Some?
  {
    if b in {PerceiveTerrain, PerceiveFood, PerceiveWater, PerceiveAgents} then Intrinsic.Perceive else Intrinsic.Look
  }

  /** What stays of the four values that the intrinsic pushed. */
  function Leaves(b: Builtin, seen: seq<int32>): (kept: seq<int32>)
    requires SugarCode(b).Some? && |seen| == 4
    ensures kept != []
  {
    var aspect := AspectOf(b);
    if aspect == 0 then seen[..1]
    else if aspect == 1 then seen[..2]
    else if aspect == 2 then seen[..2] + [seen[3]]
    else seen
  }

  /** The code of a sugar builtin, run: the intrinsic acts, and exactly those values are left, if all four find room. */
  lemma SugarEffect<W(!new)>(bc: Bytecode, h: Handler<W>, s: State<W>, b: nat, builtin: Builtin)
    requires Ready(s) && WellBehaved(h) && SugarCode(builtin).Some? && At(bc.code, s.pc, SugarCode(builtin).value)
    requires b >= INTRINSIC_COST + |SugarCode(builtin).value| - 1
    ensures var n := |SugarCode(builtin).value|;
            var reply := h(SenseOf(builtin), s.world);
            Run(bc, Some(h), s, b) ==
            if |s.stack| + 4 > MAX_STACK then
              Outcome(Moved(s, 1).(world := reply.world), StackOverrun, b - INTRINSIC_COST)
            else Run(bc, Some(h), Moved(s, n).(stack := s.stack + Leaves(builtin, reply.pushed), world := reply.world),
                     b - INTRINSIC_COST - (n - 1))
  {
    hide Run, At;
    var code := SugarCode(builtin).value;
    var sense := SenseOf(builtin);
    assert code == IntrinsicBytes(sense) + code[1..];
    AtSplit(bc.code, s.pc, IntrinsicBytes(sense), code[1..]);
    RunIntrinsic(bc, h, s, b, sense);
    var reply := h(sense, s.world);
    assert |reply.pushed| == 4;
    var s1 := Moved(s, 1).(stack := s.stack + reply.pushed, world := reply.world);
    var b1 := b - INTRINSIC_COST;
    if |s.stack| + 4 > MAX_STACK {
    } else if AspectOf(builtin) == 2 {
      assert code[1..] == [SWAP] + [POP];
      AtSplit(bc.code, s1.pc, [SWAP], [POP]);
      SwapPop(bc, h, s1, b1, s.stack, reply.pushed);
    } else {
      assert code[1..] == seq(3 - AspectOf(builtin), _ => POP);
      RunPops(bc, Some(h), s1, b1, 3 - AspectOf(builtin));
      assert s1.stack[..|s.stack| + 1 + AspectOf(builtin)] == s.stack + Leaves(builtin, reply.pushed);
    }
  }

  lemma SwapPop<W>(bc: Bytecode, h: Handler<W>, s: State<W>, b: nat, below: seq<int32>, seen: seq<int32>)
    requires Ready(s) && |seen| == 4 && s.stack == below + seen && b >= 2
    requires At(bc.code, s.pc, [SWAP]) && At(bc.code, s.pc + 1, [POP])
    ensures Run(bc, Some(h), s, b) == Run(bc, Some(h), Moved(s, 2).(stack := below + (seen[..2] + [seen[3]])), b - 2)
  {
    hide Run, At;
    var front := below + seen[..2];
    assert s.stack == front + [seen[2], seen[3]];
    RunSwap(bc, Some(h), s, b, front, seen[2], seen[3]);
    var s1 := Moved(s, 1).(stack := front + [seen[3], seen[2]]);
    RunPop(bc, Some(h), s1, b - 1);
    assert Below(s1.stack) == below + (seen[..2] + [seen[3]]);
  }

  /** Only the terrain forms keep what the language promises, the desired value alone. */
  lemma OneValueExactlyForTerrain(b: Builtin, seen: seq<int32>)
    requires SugarCode(b).Some? && |seen| == 4
    ensures Leaves(b, seen) == [seen[AspectOf(b)]] <==> b in {PerceiveTerrain, LookTerrain}
  {
    assert Leaves(b, seen) == [seen[AspectOf(b)]] ==> |Leaves(b, seen)| == 1;
  }

  /**
   On top of the stack the other forms have the desired value too, except that the water forms have the agent count
   there instead: a program that assigns perceive_water() reads the water only when the two happen to be equal.
   */
  lemma TopIsPromisedExactly(b: Builtin, seen: seq<int32>)
    requires SugarCode(b).Some? && |seen| == 4
    ensures Top(Leaves(b, seen)) == seen[AspectOf(b)] <==> (b in {PerceiveWater, LookWater} ==> seen[2] == seen[3])
  {
    assert b in {PerceiveWater, LookWater} <==> AspectOf(b) == 2;
  }

  /** On a cell with 1 water and 2 agents, perceive_water() puts 2 on top, and leaves two more values below. */
  lemma WaterReadsAgents<W(!new)>(h: Handler<W>, s: State<W>)
    requires Ready(s) && s.pc == 0 && s.stack == [] && WellBehaved(h)
    requires h(Intrinsic.Perceive, s.world).pushed == [0, 0, 1, 2]
    ensures Run(Bytecode([PERCEIVE, SWAP, POP], 0, []), Some(h), s, 12).state.stack == [0, 0, 2]
  {
    hide Run;
    var bc := Bytecode([PERCEIVE, SWAP, POP], 0, []);
    SugarEffect(bc, h, s, 12, PerceiveWater);
    var reply := h(Intrinsic.Perceive, s.world);
    assert s.stack + Leaves(PerceiveWater, reply.pushed) == [0, 0, 2];
    RunOnce(bc, Some(h), Moved(s, 3).(stack := [0, 0, 2], world := reply.world), 0);
  }
}

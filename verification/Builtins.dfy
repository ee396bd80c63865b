/** The builtin functions by name, and the bytes of a call of each. */
module Builtins {
  import opened Words
  import opened Ast
  import opened Codegen

  /** The builtins that are instructions of the machine, senses and acts. */
  lemma ActBuiltins()
    ensures BuiltinOf("perceive") == Some(Perceive)
    ensures BuiltinOf("look") == Some(Look)
    ensures BuiltinOf("move") == Some(Move)
    ensures BuiltinOf("turn_left") == Some(TurnLeft)
    ensures BuiltinOf("turn_right") == Some(TurnRight)
    ensures BuiltinOf("eat") == Some(Eat)
    ensures BuiltinOf("drink") == Some(Drink)
    ensures BuiltinOf("reproduce") == Some(Reproduce)
  {
    assert "move"[0] != "look"[0] && "reproduce"[0] != "turn_left"[0];
    assert "my_energy"[0] != "turn_left"[0] && "my_energy"[0] != "reproduce"[0];
    assert "my_trait"[0] != "perceive"[0] && "look_food"[0] != "turn_left"[0];
    assert "look_food"[0] != "reproduce"[0] && "look_water"[0] != "turn_right"[0];
  }

  /** The builtins that report on the agent itself. */
  lemma ReportBuiltins()
    ensures BuiltinOf("my_energy") == Some(MyEnergy)
    ensures BuiltinOf("my_hydration") == Some(MyHydration)
    ensures BuiltinOf("my_trait") == Some(MyTrait)
  {
    assert "my_energy"[0] != "turn_left"[0] && "my_energy"[0] != "reproduce"[0];
    assert "my_trait"[0] != "perceive"[0] && "look_terrain"[0] != "my_hydration"[0];
    assert "look_food"[0] != "my_energy"[0];
  }

  /** The builtins that keep values of the own cell. */
  lemma PerceiveForms()
    ensures BuiltinOf("perceive_terrain") == Some(PerceiveTerrain)
    ensures BuiltinOf("perceive_food") == Some(PerceiveFood)
    ensures BuiltinOf("perceive_water") == Some(PerceiveWater)
    ensures BuiltinOf("perceive_agents") == Some(PerceiveAgents)
  {

  }

  /** The builtins that keep values of the cell ahead. */
  lemma LookForms()
    ensures BuiltinOf("look_terrain") == Some(LookTerrain)
    ensures BuiltinOf("look_food") == Some(LookFood)
    ensures BuiltinOf("look_water") == Some(LookWater)
    ensures BuiltinOf("look_agents") == Some(LookAgents)
  {
    assert "look_terrain"[0] != "my_hydration"[0] && "look_food"[0] != "turn_left"[0];
    assert "look_food"[0] != "reproduce"[0] && "look_food"[0] != "my_energy"[0];
    assert "look_water"[0] != "turn_right"[0];
  }

  /** A call of this name without arguments is this code, in every function of every program. */
  ghost predicate Emits(name: string, code: seq<byte>) {
    forall env: Env :: GenExpr(Call(name, []), env) == Ok(code)
  }

  lemma BytesOf(name: string, b: Builtin)
    requires BuiltinOf(name) == Some(b) && b != MyTrait
    ensures Emits(name, if SugarCode(b).Some? then SugarCode(b).value else [IntrinsicCode(b)])
  {
    hide BuiltinOf;
    forall env: Env
      ensures GenExpr(Call(name, []), env) ==
              Ok(if SugarCode(b).Some? then SugarCode(b).value else [IntrinsicCode(b)])
    {
      assert GenExprs([], env) == Ok([]);
      if SugarCode(b).None? {
        assert [] + [IntrinsicCode(b)] == [IntrinsicCode(b)];
      }
    }
  }

  /** The bytes of a call of each builtin without parameters. */
  lemma BuiltinBytes()
    ensures Emits("perceive", [0x80])
    ensures Emits("look", [0x81])
    ensures Emits("move", [0x82])
    ensures Emits("turn_left", [0x83])
    ensures Emits("turn_right", [0x84])
    ensures Emits("eat", [0x85])
    ensures Emits("drink", [0x86])
    ensures Emits("reproduce", [0x87])
    ensures Emits("my_energy", [0x88])
    ensures Emits("my_hydration", [0x89])
    ensures Emits("perceive_terrain", [0x80, 3, 3, 3])
    ensures Emits("perceive_food", [0x80, 3, 3])
    ensures Emits("perceive_water", [0x80, 5, 3])
    ensures Emits("perceive_agents", [0x80])
    ensures Emits("look_terrain", [0x81, 3, 3, 3])
    ensures Emits("look_food", [0x81, 3, 3])
    ensures Emits("look_water", [0x81, 5, 3])
    ensures Emits("look_agents", [0x81])
  {
    hide BuiltinOf, Emits;
    ActBuiltins();
    ReportBuiltins();
    PerceiveForms();
    LookForms();
    BytesOf("perceive", Perceive);
    BytesOf("look", Look);
    BytesOf("move", Move);
    BytesOf("turn_left", TurnLeft);
    BytesOf("turn_right", TurnRight);
    BytesOf("eat", Eat);
    BytesOf("drink", Drink);
    BytesOf("reproduce", Reproduce);
    BytesOf("my_energy", MyEnergy);
    BytesOf("my_hydration", MyHydration);
    BytesOf("perceive_terrain", PerceiveTerrain);
    BytesOf("perceive_food", PerceiveFood);
    BytesOf("perceive_water", PerceiveWater);
    BytesOf("perceive_agents", PerceiveAgents);
    BytesOf("look_terrain", LookTerrain);
    BytesOf("look_food", LookFood);
    BytesOf("look_water", LookWater);
    BytesOf("look_agents", LookAgents);
  }

  /** my_trait needs a literal, of which it takes the low byte. */
  lemma TraitBytes(args: seq<Expr>, env: Env)
    ensures GenExpr(Call("my_trait", args), env) ==
            if args == [] then Err(MissingParameter)
            else if !args[0].IntLit? then Err(TraitNotLiteral)
            else Ok([0x8A, args[0].n % 256])
  {
    hide BuiltinOf;
    ReportBuiltins();
  }
}

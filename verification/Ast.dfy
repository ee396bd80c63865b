/** Abstract syntax of GoL Script, without the source positions that only error messages use. */
module Ast {
  import opened Words

  datatype BinOp = Add | Sub | Mul | Div | Mod | Eq | Ne | Lt | Gt | Le | Ge | And | Or

  datatype UnOp = Neg | Not

  datatype Expr =
    | IntLit(n: int)
    | BoolLit(b: bool)
    | Var(name: string)
    | Binary(op: BinOp, left: Expr, right: Expr)
    | Unary(uop: UnOp, operand: Expr)
    | Call(callee: string, args: seq<Expr>)

  /** An if without else and a return without value are constructors of their own. */
  datatype Stmt =
    | VarDecl(name: string, init: Expr)
    | Assign(name: string, val: Expr)
    | ExprStmt(e: Expr)
    | IfThen(cond: Expr, thn: seq<Stmt>)
    | IfElse(cond: Expr, thn: seq<Stmt>, els: seq<Stmt>)
    | While(cond: Expr, body: seq<Stmt>)
    | ReturnVoid
    | Return(res: Expr)

  datatype FunctionDef = FunctionDef(name: string, params: seq<string>, body: seq<Stmt>)

  datatype Program = Program(functions: seq<FunctionDef>)

  /** The builtin functions: the intrinsics of the VM and the perception sugar. */
  datatype Builtin =
    | Perceive | Look | Move | TurnLeft | TurnRight | Eat | Drink | Reproduce
    | MyEnergy | MyHydration | MyTrait
    | PerceiveTerrain | PerceiveFood | PerceiveWater | PerceiveAgents
    | LookTerrain | LookFood | LookWater | LookAgents

  const BUILTINS: map<string, Builtin> := map[
    "perceive" := Perceive, "look" := Look, "move" := Move,
    "turn_left" := TurnLeft, "turn_right" := TurnRight,
    "eat" := Eat, "drink" := Drink, "reproduce" := Reproduce,
    "my_energy" := MyEnergy, "my_hydration" := MyHydration, "my_trait" := MyTrait,
    "perceive_terrain" := PerceiveTerrain, "perceive_food" := PerceiveFood,
    "perceive_water" := PerceiveWater, "perceive_agents" := PerceiveAgents,
    "look_terrain" := LookTerrain, "look_food" := LookFood,
    "look_water" := LookWater, "look_agents" := LookAgents]

  function BuiltinOf(name: string): Option<Builtin> {
    if name in BUILTINS then Some(BUILTINS[name]) else None
  }

  function Arity(b: Builtin): nat {
    if b == MyTrait then 1 else 0
  }
}

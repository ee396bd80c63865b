/** Names as the lexer makes them: identifiers that are no keywords. */
module Names {
  import opened Ast
  import opened Tokens
  import opened Lexer

  ghost predicate IsIdentifier(w: string) {
    w != "" && IsAlpha(w[0]) && (forall i :: 0 <= i < |w| ==> IsWordChar(w[i])) && KeywordOf(w) == IDENT
  }

  ghost predicate ExprNames(e: Expr)
    decreases e, 1
  {
    match e
    case Var(name) => IsIdentifier(name)
    case Binary(_, left, right) => ExprNames(left) && ExprNames(right)
    case Unary(_, operand) => ExprNames(operand)
    case Call(name, args) => IsIdentifier(name) && ExprsNames(args)
    case _ => true
  }

  ghost predicate ExprsNames(es: seq<Expr>)
    decreases es, 0
  {
    es == [] || (ExprNames(es[0]) && ExprsNames(es[1..]))
  }

  ghost predicate StmtNames(s: Stmt)
    decreases s, 1
  {
    match s
    case VarDecl(name, init) => IsIdentifier(name) && ExprNames(init)
    case Assign(name, val) => IsIdentifier(name) && ExprNames(val)
    case ExprStmt(e) => ExprNames(e)
    case IfThen(cond, thn) => ExprNames(cond) && StmtsNames(thn)
    case IfElse(cond, thn, els) => ExprNames(cond) && StmtsNames(thn) && StmtsNames(els)
    case While(cond, body) => ExprNames(cond) && StmtsNames(body)
    case ReturnVoid => true
    case Return(res) => ExprNames(res)
  }

  ghost predicate StmtsNames(ss: seq<Stmt>)
    decreases ss, 0
  {
    ss == [] || (StmtNames(ss[0]) && StmtsNames(ss[1..]))
  }

  /** All names of the program are identifiers, none a keyword. */
  ghost predicate ProgramNames(p: Program) {
    forall f :: f in p.functions ==>
      IsIdentifier(f.name) && (forall i :: 0 <= i < |f.params| ==> IsIdentifier(f.params[i])) && StmtsNames(f.body)
  }
}

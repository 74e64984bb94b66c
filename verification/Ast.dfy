/** The syntax tree the parser builds and the compiler lowers. */
module Ast {
  import opened Prelude
  import opened Bytecode

  datatype BinaryOp = Add | Sub | Mul | Less | Greater | Equal

  datatype Expr =
    | IntLiteral(value: int32)
    | StringLiteral(text: Bytes)
    | VarRef(name: Bytes)
    | Cast(target: ValueType, operand: Expr)
    | Binary(op: BinaryOp, lhs: Expr, rhs: Expr)
    | Call(callee: Bytes, args: seq<Expr>)

  datatype ElseBranch = NoElse | Else(body: seq<Stmt>)

  datatype Stmt =
    | Block(statements: seq<Stmt>)
    | VarDecl(ty: ValueType, name: Bytes, init: Option<Expr>)
    | Assign(name: Bytes, value: Expr)
    | ExprStmt(expr: Expr)
    | While(condition: Expr, body: seq<Stmt>)
    | If(condition: Expr, thenBranch: seq<Stmt>, elseBranch: ElseBranch)

  datatype Param = Param(ty: ValueType, name: Bytes)

  datatype EventHandler = EventHandler(name: Bytes, params: seq<Param>, body: seq<Stmt>)

  /** A global's initializer, when it has one, is a literal of the global's own type. */
  datatype GlobalVar = GlobalVar(ty: ValueType, name: Bytes, init: Option<Value>) {
    predicate Valid() {
      init.Some? ==> TypeOf(init.value) == ty
    }
  }

  datatype Script = Script(globals: seq<GlobalVar>, events: seq<EventHandler>) {
    predicate Valid() {
      forall g :: g in globals ==> g.Valid()
    }
  }
}

/** What a script's operators compute. */
module OperatorMeaning {
  import opened Prelude
  import opened Bytecode
  import opened Ast
  import opened Compiler
  import opened Evaluator

  /** Sums, differences and products are those of the integers, brought into thirty-two bits; a
      comparison is one or zero. */
  lemma IntegersMean(env: Env, op: BinaryOp, lhs: Expr, rhs: Expr, st: Store, a: int32, b: int32)
    requires TypeExpr(env, lhs) == Ok(Integer) && EvalExpr(env, lhs, st) == Some(Int(a)) && EvalExpr(env, rhs, st) == Some(Int(b))
    ensures EvalExpr(env, Binary(op, lhs, rhs), st).Some? && EvalExpr(env, Binary(op, lhs, rhs), st).value.Int?
    ensures var r: int := EvalExpr(env, Binary(op, lhs, rhs), st).value.integer;
      match op
      case Add => (a + b - r) % 0x1_0000_0000 == 0
      case Sub => (a - b - r) % 0x1_0000_0000 == 0
      case Mul => (a * b - r) % 0x1_0000_0000 == 0
      case Less => r == if a < b then 1 else 0
      case Greater => r == if b < a then 1 else 0
      case Equal => r == if a == b then 1 else 0
  {
  }

  /** The sum of two texts is the first followed by the second. */
  lemma TextsMean(env: Env, lhs: Expr, rhs: Expr, st: Store, a: Bytes, b: Bytes)
    requires TypeExpr(env, lhs) == Ok(Text) && EvalExpr(env, lhs, st) == Some(Str(a)) && EvalExpr(env, rhs, st) == Some(Str(b))
    ensures EvalExpr(env, Binary(Add, lhs, rhs), st) == Some(Str(a + b))
  {
  }

  /** A name is the local's where there is one, and a global's otherwise; an assignment goes where a
      reading comes from. */
  lemma NamesMean(env: Env, name: Bytes, v: Value, st: Store)
    requires name in env.locals || name in st.globals
    ensures var st1 := WriteName(env, name, v, st);
      && EvalExpr(env, VarRef(name), st1) == Some(v) && st1.trace == st.trace
      && (name in env.locals ==> st1.globals == st.globals) && (name !in env.locals ==> st1.locals == st.locals)
    ensures forall other :: other != name && (other in env.locals || other in st.globals) ==>
      EvalExpr(env, VarRef(other), WriteName(env, name, v, st)) == EvalExpr(env, VarRef(other), st)
  {
  }

  /** The two events a script may handle and the two functions it may call, with their types. */
  lemma EventsAndFunctions(name: Bytes)
    ensures LookupEvent(name)
      == if name == "state_entry" then Some([]) else if name == "touch_start" then Some([Integer]) else None
    ensures match LookupHost(name)
      case Some(f) => f.result == Void && f.params == (if name == "llOwnerSay" then [Text] else [Integer, Text])
      case None => name != "llOwnerSay" && name != "llSay"
    ensures LookupHost(name).Some? <==> name == "llOwnerSay" || name == "llSay"
  {
  }
}

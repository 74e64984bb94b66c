/** The decimal text of an integer. */
module DecimalText {
  import opened Prelude
  import opened Bytecode
  import opened Vm
  import opened Ast
  import opened Evaluator

  // ----- reading decimal text -----

  predicate IsNumeral(s: Bytes) {
    s != [] && forall i :: 0 <= i < |s| ==> '0' <= s[i] <= '9'
  }

  /** The number some digits stand for, the first counting most. */
  function NumeralValue(s: Bytes): nat
    requires forall i :: 0 <= i < |s| ==> '0' <= s[i] <= '9'
  {
    if s == [] then 0 else 10 * NumeralValue(s[..|s| - 1]) + (s[|s| - 1] as int - '0' as int)
  }

  /** Digits with no leading zero, but for zero itself, and a sign before the negative ones. */
  predicate IsDecimal(s: Bytes) {
    if s != [] && s[0] == '-' then IsNumeral(s[1..]) && s[1] != '0'
    else IsNumeral(s) && (s[0] == '0' ==> |s| == 1)
  }

  function DecimalValue(s: Bytes): int
    requires IsDecimal(s)
  {
    if s[0] == '-' then 0 - NumeralValue(s[1..]) else NumeralValue(s)
  }

  // ----- writing it -----

  lemma {:induction false} DigitsSpell(n: nat)
    ensures IsNumeral(Digits(n)) && NumeralValue(Digits(n)) == n
    ensures Digits(n)[0] == '0' ==> n == 0 && |Digits(n)| == 1
    decreases n
  {
    var d: Byte := (48 + n % 10) as char;
    if n < 10 {
      assert Digits(n) == [d] && [d][..0] == [];
    } else {
      DigitsSpell(n / 10);
      var front := Digits(n / 10);
      assert Digits(n) == front + [d] && (front + [d])[..|front|] == front;
    }
  }

  /** The text of any integer is decimal, reads as that integer, and begins with a sign exactly when
      the integer is negative. */
  lemma TextReadsAsTheInteger(n: int)
    ensures IsDecimal(IntToString(n)) && DecimalValue(IntToString(n)) == n
    ensures IntToString(n)[0] == '-' <==> n < 0
  {
    if n < 0 {
      DigitsSpell(-n);
      assert IntToString(n)[1..] == Digits(-n);
    } else {
      DigitsSpell(n);
    }
  }

  /** Two integers of one text are one. */
  lemma TextTellsIntegersApart(m: int, n: int)
    requires IntToString(m) == IntToString(n)
    ensures m == n
  {
    TextReadsAsTheInteger(m);
    TextReadsAsTheInteger(n);
  }

  /** The machine's cast: an integer on top of the stack becomes the decimal text of its value. */
  lemma CastSpellsItsOperand(s: VmState, n: int32)
    requires s.stack != [] && s.stack[|s.stack| - 1] == Int(n)
    ensures StepCast(s).Next? && var t := StepCast(s).state;
      && |t.stack| == |s.stack| && t.stack[..|s.stack| - 1] == s.stack[..|s.stack| - 1]
      && t.stack[|s.stack| - 1].Str?
      && var text := t.stack[|s.stack| - 1].text;
         IsDecimal(text) && DecimalValue(text) == n && (text[0] == '-' <==> n < 0)
  {
    hide IsDecimal, IntToString;
    TextReadsAsTheInteger(n);
  }

  /** And the evaluator's. */
  lemma CastEvaluatesToDecimal(env: Env, e: Expr, st: Store, n: int32)
    requires TypeExpr(env, e) == Ok(Integer) && EvalExpr(env, e, st) == Some(Int(n))
    ensures var x := EvalExpr(env, Cast(Text, e), st);
      x.Some? && x.value.Str? && IsDecimal(x.value.text) && DecimalValue(x.value.text) == n
  {
    hide IsDecimal, IntToString;
    TextReadsAsTheInteger(n);
  }
}

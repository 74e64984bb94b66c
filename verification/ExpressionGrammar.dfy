/** Expressions by a grammar of levels. */
module ExpressionGrammar {
  import opened Prelude
  import opened Ast
  import opened Lexer
  import opened Parser

  // ----- one production a level: an operand, then operators of the level, to the left -----

  function Equality(ts: TokenList, pos: nat): (r: Parse<Expr>)
    requires Terminated(ts) && pos < |ts|
    ensures r.Parsed? ==> pos < r.next < |ts|
  {
    match Relation(ts, pos)
    case Rejected(e) => Rejected(e)
    case Parsed(left, next) => MoreEquals(ts, next, left)
  }

  function MoreEquals(ts: TokenList, pos: nat, left: Expr): (r: Parse<Expr>)
    requires Terminated(ts) && pos < |ts|
    ensures r.Parsed? ==> pos <= r.next < |ts|
    decreases |ts| - pos
  {
    if KindAt(ts, pos) != EqualEqual then Parsed(left, pos)
    else
      match Relation(ts, pos + 1)
      case Rejected(e) => Rejected(e)
      case Parsed(right, next) => MoreEquals(ts, next, Binary(Equal, left, right))
  }

  function Relation(ts: TokenList, pos: nat): (r: Parse<Expr>)
    requires Terminated(ts) && pos < |ts|
    ensures r.Parsed? ==> pos < r.next < |ts|
  {
    match Sum(ts, pos)
    case Rejected(e) => Rejected(e)
    case Parsed(left, next) => MoreRelations(ts, next, left)
  }

  function MoreRelations(ts: TokenList, pos: nat, left: Expr): (r: Parse<Expr>)
    requires Terminated(ts) && pos < |ts|
    ensures r.Parsed? ==> pos <= r.next < |ts|
    decreases |ts| - pos
  {
    if KindAt(ts, pos) != LessSign && KindAt(ts, pos) != GreaterSign then Parsed(left, pos)
    else
      match Sum(ts, pos + 1)
      case Rejected(e) => Rejected(e)
      case Parsed(right, next) =>
        MoreRelations(ts, next, Binary(if KindAt(ts, pos) == LessSign then Less else Greater, left, right))
  }

  function Sum(ts: TokenList, pos: nat): (r: Parse<Expr>)
    requires Terminated(ts) && pos < |ts|
    ensures r.Parsed? ==> pos < r.next < |ts|
  {
    match Product(ts, pos)
    case Rejected(e) => Rejected(e)
    case Parsed(left, next) => MoreTerms(ts, next, left)
  }

  function MoreTerms(ts: TokenList, pos: nat, left: Expr): (r: Parse<Expr>)
    requires Terminated(ts) && pos < |ts|
    ensures r.Parsed? ==> pos <= r.next < |ts|
    decreases |ts| - pos
  {
    if KindAt(ts, pos) != PlusSign && KindAt(ts, pos) != MinusSign then Parsed(left, pos)
    else
      match Product(ts, pos + 1)
      case Rejected(e) => Rejected(e)
      case Parsed(right, next) =>
        MoreTerms(ts, next, Binary(if KindAt(ts, pos) == PlusSign then Add else Sub, left, right))
  }

  function Product(ts: TokenList, pos: nat): (r: Parse<Expr>)
    requires Terminated(ts) && pos < |ts|
    ensures r.Parsed? ==> pos < r.next < |ts|
  {
    match ParseUnary(ts, pos)
    case Rejected(e) => Rejected(e)
    case Parsed(left, next) => MoreFactors(ts, next, left)
  }

  function MoreFactors(ts: TokenList, pos: nat, left: Expr): (r: Parse<Expr>)
    requires Terminated(ts) && pos < |ts|
    ensures r.Parsed? ==> pos <= r.next < |ts|
    decreases |ts| - pos
  {
    if KindAt(ts, pos) != StarSign then Parsed(left, pos)
    else
      match ParseUnary(ts, pos + 1)
      case Rejected(e) => Rejected(e)
      case Parsed(right, next) => MoreFactors(ts, next, Binary(Mul, left, right))
  }

  // ----- climbing is descending -----

  /** No operator of the minimum precedence or more is left standing. */
  lemma {:induction false} NothingTighterFollows(ts: TokenList, pos: nat, left: Expr, min: int)
    requires Terminated(ts) && pos < |ts|
    ensures var r := ParseOperators(ts, pos, left, min);
      r.Parsed? ==> Precedence(KindAt(ts, r.next)) < 0 || Precedence(KindAt(ts, r.next)) < min
    decreases |ts| - pos
  {
    var k := KindAt(ts, pos);
    if Precedence(k) >= 0 && Precedence(k) >= min && ParseExpr(ts, pos + 1, Precedence(k) + 1).Parsed? {
      var right := ParseExpr(ts, pos + 1, Precedence(k) + 1);
      NothingTighterFollows(ts, right.next, Binary(OperatorOf(k), left, right.value), min);
    }
  }

  /** Operators of one precedence alone, their operands read with tighter ones. */
  function OneLevel(ts: TokenList, pos: nat, left: Expr, level: nat): (r: Parse<Expr>)
    requires Terminated(ts) && pos < |ts|
    ensures r.Parsed? ==> pos <= r.next < |ts|
    decreases |ts| - pos
  {
    if Precedence(KindAt(ts, pos)) != level then Parsed(left, pos)
    else
      match ParseExpr(ts, pos + 1, level + 1)
      case Rejected(e) => Rejected(e)
      case Parsed(right, next) => OneLevel(ts, next, Binary(OperatorOf(KindAt(ts, pos)), left, right), level)
  }

  /** Operators of a precedence or more are the tighter ones, and then those of the precedence. */
  lemma {:induction false} LevelByLevel(ts: TokenList, pos: nat, left: Expr, level: nat)
    requires Terminated(ts) && pos < |ts|
    ensures ParseOperators(ts, pos, left, level)
      == match ParseOperators(ts, pos, left, level + 1)
         case Rejected(e) => Rejected(e)
         case Parsed(first, next) => OneLevel(ts, next, first, level)
    decreases |ts| - pos
  {
    hide ParseExpr;
    var k := KindAt(ts, pos);
    if Precedence(k) >= level {
      match ParseExpr(ts, pos + 1, Precedence(k) + 1)
      case Rejected(_) =>
      case Parsed(right, next) =>
        var more := Binary(OperatorOf(k), left, right);
        LevelByLevel(ts, next, more, level);
        if Precedence(k) == level {
          ExprStops(ts, pos + 1, level + 1);
          assert ParseOperators(ts, next, more, level + 1) == Parsed(more, next);
        }
    }
  }

  lemma ExprStops(ts: TokenList, pos: nat, min: int)
    requires Terminated(ts) && pos < |ts|
    ensures var r := ParseExpr(ts, pos, min);
      r.Parsed? ==> Precedence(KindAt(ts, r.next)) < 0 || Precedence(KindAt(ts, r.next)) < min
  {
    hide ParseOperators;
    match ParseUnary(ts, pos)
    case Rejected(_) =>
    case Parsed(left, next) => NothingTighterFollows(ts, next, left, min);
  }

  lemma ExprByLevel(ts: TokenList, pos: nat, level: nat)
    requires Terminated(ts) && pos < |ts|
    ensures ParseExpr(ts, pos, level)
      == match ParseExpr(ts, pos, level + 1)
         case Rejected(e) => Rejected(e)
         case Parsed(first, next) => OneLevel(ts, next, first, level)
  {
    hide ParseOperators, OneLevel;
    match ParseUnary(ts, pos)
    case Rejected(_) =>
    case Parsed(left, next) => LevelByLevel(ts, next, left, level);
  }

  /** Above the tightest operator there are unaries alone. */
  lemma UnaryLevel(ts: TokenList, pos: nat)
    requires Terminated(ts) && pos < |ts|
    ensures ParseExpr(ts, pos, 5) == ParseUnary(ts, pos)
  {
    hide ParseUnary;
    match ParseUnary(ts, pos)
    case Rejected(_) =>
    case Parsed(left, next) => assert ParseOperators(ts, next, left, 5) == Parsed(left, next);
  }

  lemma {:induction false} FactorsLevel(ts: TokenList, pos: nat, left: Expr)
    requires Terminated(ts) && pos < |ts|
    ensures OneLevel(ts, pos, left, 4) == MoreFactors(ts, pos, left)
    decreases |ts| - pos
  {
    hide ParseExpr, ParseUnary;
    if KindAt(ts, pos) == StarSign {
      UnaryLevel(ts, pos + 1);
      match ParseUnary(ts, pos + 1)
      case Rejected(_) =>
      case Parsed(right, next) => FactorsLevel(ts, next, Binary(Mul, left, right));
    }
  }

  lemma ProductLevel(ts: TokenList, pos: nat)
    requires Terminated(ts) && pos < |ts|
    ensures ParseExpr(ts, pos, 4) == Product(ts, pos)
  {
    hide ParseExpr, ParseUnary, OneLevel, MoreFactors;
    ExprByLevel(ts, pos, 4);
    UnaryLevel(ts, pos);
    match ParseUnary(ts, pos)
    case Rejected(_) =>
    case Parsed(left, next) => FactorsLevel(ts, next, left);
  }

  lemma {:induction false} TermsLevel(ts: TokenList, pos: nat, left: Expr)
    requires Terminated(ts) && pos < |ts|
    ensures OneLevel(ts, pos, left, 3) == MoreTerms(ts, pos, left)
    decreases |ts| - pos
  {
    hide ParseExpr, Product;
    var k := KindAt(ts, pos);
    if k == PlusSign || k == MinusSign {
      ProductLevel(ts, pos + 1);
      match Product(ts, pos + 1)
      case Rejected(_) =>
      case Parsed(right, next) => TermsLevel(ts, next, Binary(if k == PlusSign then Add else Sub, left, right));
    }
  }

  lemma SumLevel(ts: TokenList, pos: nat)
    requires Terminated(ts) && pos < |ts|
    ensures ParseExpr(ts, pos, 3) == Sum(ts, pos)
  {
    hide ParseExpr, Product, OneLevel, MoreTerms;
    ExprByLevel(ts, pos, 3);
    ProductLevel(ts, pos);
    match Product(ts, pos)
    case Rejected(_) =>
    case Parsed(left, next) => TermsLevel(ts, next, left);
  }

  lemma {:induction false} RelationsLevel(ts: TokenList, pos: nat, left: Expr)
    requires Terminated(ts) && pos < |ts|
    ensures OneLevel(ts, pos, left, 2) == MoreRelations(ts, pos, left)
    decreases |ts| - pos
  {
    hide ParseExpr, Sum;
    var k := KindAt(ts, pos);
    if k == LessSign || k == GreaterSign {
      SumLevel(ts, pos + 1);
      match Sum(ts, pos + 1)
      case Rejected(_) =>
      case Parsed(right, next) => RelationsLevel(ts, next, Binary(if k == LessSign then Less else Greater, left, right));
    }
  }

  lemma RelationLevel(ts: TokenList, pos: nat)
    requires Terminated(ts) && pos < |ts|
    ensures ParseExpr(ts, pos, 2) == Relation(ts, pos)
  {
    hide ParseExpr, Sum, OneLevel, MoreRelations;
    ExprByLevel(ts, pos, 2);
    SumLevel(ts, pos);
    match Sum(ts, pos)
    case Rejected(_) =>
    case Parsed(left, next) => RelationsLevel(ts, next, left);
  }

  lemma {:induction false} EqualsLevel(ts: TokenList, pos: nat, left: Expr)
    requires Terminated(ts) && pos < |ts|
    ensures OneLevel(ts, pos, left, 1) == MoreEquals(ts, pos, left)
    decreases |ts| - pos
  {
    hide ParseExpr, Relation;
    if KindAt(ts, pos) == EqualEqual {
      RelationLevel(ts, pos + 1);
      match Relation(ts, pos + 1)
      case Rejected(_) =>
      case Parsed(right, next) => EqualsLevel(ts, next, Binary(Equal, left, right));
    }
  }

  lemma NoOperatorOfNone(ts: TokenList, pos: nat, left: Expr)
    requires Terminated(ts) && pos < |ts|
    ensures OneLevel(ts, pos, left, 0) == Parsed(left, pos)
  {
  }

  /** On every token list, climbing by the precedence table reads what the grammar of levels reads,
      and rejects with its error what the grammar rejects: equality binds loosest, then comparison,
      then sums, then products, each to the left. */
  lemma ReadsByLevels(ts: TokenList, pos: nat)
    requires Terminated(ts) && pos < |ts|
    ensures ParseExpr(ts, pos, 0) == Equality(ts, pos)
  {
    hide ParseExpr, Relation, OneLevel, MoreEquals;
    ExprByLevel(ts, pos, 0);
    ExprByLevel(ts, pos, 1);
    RelationLevel(ts, pos);
    match Relation(ts, pos)
    case Rejected(_) =>
    case Parsed(left, next) => EqualsLevel(ts, next, left);
    var first := ParseExpr(ts, pos, 1);
    if first.Parsed? {
      NoOperatorOfNone(ts, first.next, first.value);
    }
  }

  // ----- two operators -----

  /** Three operands with an operator between each two stand from `pos` on, and no operator after. */
  predicate Three(ts: TokenList, pos: nat, a: Parse<Expr>, first: TokenKind, b: Parse<Expr>, second: TokenKind, c: Parse<Expr>)
    requires Terminated(ts)
  {
    && pos < |ts| && a == ParseUnary(ts, pos) && a.Parsed? && KindAt(ts, a.next) == first
    && a.next + 1 < |ts| && b == ParseUnary(ts, a.next + 1) && b.Parsed? && KindAt(ts, b.next) == second
    && b.next + 1 < |ts| && c == ParseUnary(ts, b.next + 1) && c.Parsed?
    && KindAt(ts, c.next) !in {EqualEqual, LessSign, GreaterSign, PlusSign, MinusSign, StarSign}
  }

  lemma OneFactor(ts: TokenList, pos: nat)
    requires Terminated(ts) && pos < |ts| && ParseUnary(ts, pos).Parsed?
    requires KindAt(ts, ParseUnary(ts, pos).next) != StarSign
    ensures Product(ts, pos) == ParseUnary(ts, pos)
  {
    hide ParseUnary;
  }

  lemma TwoFactors(ts: TokenList, pos: nat, a: Parse<Expr>, b: Parse<Expr>)
    requires Terminated(ts) && pos < |ts| && a == ParseUnary(ts, pos) && a.Parsed? && KindAt(ts, a.next) == StarSign
    requires a.next + 1 < |ts| && b == ParseUnary(ts, a.next + 1) && b.Parsed? && KindAt(ts, b.next) != StarSign
    ensures Product(ts, pos) == Parsed(Binary(Mul, a.value, b.value), b.next)
  {
    hide ParseUnary;
    assert MoreFactors(ts, b.next, Binary(Mul, a.value, b.value)) == Parsed(Binary(Mul, a.value, b.value), b.next);
  }

  lemma NoMoreTerms(ts: TokenList, pos: nat, left: Expr)
    requires Terminated(ts) && pos < |ts| && KindAt(ts, pos) != PlusSign && KindAt(ts, pos) != MinusSign
    ensures MoreTerms(ts, pos, left) == Parsed(left, pos)
  {
  }

  lemma OnlyASum(ts: TokenList, pos: nat)
    requires Terminated(ts) && pos < |ts| && Sum(ts, pos).Parsed?
    requires KindAt(ts, Sum(ts, pos).next) !in {EqualEqual, LessSign, GreaterSign}
    ensures ParseExpr(ts, pos, 0) == Sum(ts, pos)
  {
    hide ParseExpr, Sum;
    ReadsByLevels(ts, pos);
    assert Relation(ts, pos) == Sum(ts, pos);
  }

  /** a + b * c is a sum whose second term is a product. */
  lemma ProductAfterSum(ts: TokenList, pos: nat, a: Parse<Expr>, b: Parse<Expr>, c: Parse<Expr>)
    requires Terminated(ts) && Three(ts, pos, a, PlusSign, b, StarSign, c)
    ensures ParseExpr(ts, pos, 0) == Parsed(Binary(Add, a.value, Binary(Mul, b.value, c.value)), c.next)
  {
    hide ParseExpr, ParseUnary, Product;
    OneFactor(ts, pos);
    TwoFactors(ts, a.next + 1, b, c);
    NoMoreTerms(ts, c.next, Binary(Add, a.value, Binary(Mul, b.value, c.value)));
    OnlyASum(ts, pos);
  }

  /** a * b + c is a sum whose first term is a product. */
  lemma SumAfterProduct(ts: TokenList, pos: nat, a: Parse<Expr>, b: Parse<Expr>, c: Parse<Expr>)
    requires Terminated(ts) && Three(ts, pos, a, StarSign, b, PlusSign, c)
    ensures ParseExpr(ts, pos, 0) == Parsed(Binary(Add, Binary(Mul, a.value, b.value), c.value), c.next)
  {
    hide ParseExpr, ParseUnary, Product;
    TwoFactors(ts, pos, a, b);
    OneFactor(ts, b.next + 1);
    NoMoreTerms(ts, c.next, Binary(Add, Binary(Mul, a.value, b.value), c.value));
    OnlyASum(ts, pos);
  }

  /** a - b - c takes c from a - b. */
  lemma DifferenceToTheLeft(ts: TokenList, pos: nat, a: Parse<Expr>, b: Parse<Expr>, c: Parse<Expr>)
    requires Terminated(ts) && Three(ts, pos, a, MinusSign, b, MinusSign, c)
    ensures ParseExpr(ts, pos, 0) == Parsed(Binary(Sub, Binary(Sub, a.value, b.value), c.value), c.next)
  {
    hide ParseExpr, ParseUnary, Product;
    OneFactor(ts, pos);
    OneFactor(ts, a.next + 1);
    OneFactor(ts, b.next + 1);
    var ab := Binary(Sub, a.value, b.value);
    NoMoreTerms(ts, c.next, Binary(Sub, ab, c.value));
    assert MoreTerms(ts, b.next, ab) == Parsed(Binary(Sub, ab, c.value), c.next);
    OnlyASum(ts, pos);
  }
}

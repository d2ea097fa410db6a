/** The expression evaluator (src/interpreter.rs).

    This revision of rlox's interpreter implements the literal, grouping, unary and
    binary cases of the expression visitor; those are the expressions this
    module evaluates. Numbers are exact reals, so rounding and NaN are not
    modelled. */
module Interpreter {
  import opened Common
  import opened Values
  import Tokens
  import Ast

  /** `is_truthy`: only `false` and `nil` are falsy. */
  predicate IsTruthy(v: Value)
    ensures IsTruthy(v) <==> v != Boolean(false) && v != Null
  {
    match v
    case Boolean(b) => b
    case Null => false
    case _ => true
  }

  /** `visit_literal_expr`. */
  function EvalLiteral(lit: Ast.LiteralValue): (v: Value)
    ensures v.Number? <==> lit.Number?
    ensures v.String? <==> lit.String?
    ensures v.Boolean? <==> lit.Boolean?
    ensures v.Null? <==> lit.Nil?
    ensures lit.Number? ==> v.n == lit.n
    ensures lit.String? ==> v.s == lit.s
    ensures lit.Boolean? ==> v.b == lit.b
  {
    match lit
    case Number(n) => Number(n)
    case String(s) => String(s)
    case Boolean(b) => Boolean(b)
    case Nil => Null
  }

  function RuntimeError(message: string): Error {
    Error(Runtime, message)
  }

  /** `visit_unary_expr`, once the operand has been evaluated. */
  function EvalUnary(op: Tokens.Token, v: Value): (r: Result<Value>)
    ensures op.tokenType == Tokens.Bang ==> r == Success(Boolean(!IsTruthy(v)))
    ensures op.tokenType == Tokens.Minus ==> (r.Success? <==> v.Number?)
    ensures op.tokenType == Tokens.Minus && v.Number? ==> r.value == Number(-v.n)
    ensures op.tokenType == Tokens.Minus && !v.Number? ==> r.error == RuntimeError("Operand must be a number")
    ensures op.tokenType != Tokens.Minus && op.tokenType != Tokens.Bang ==> r == Failure(RuntimeError("Unknown unary operator"))
  {
    match op.tokenType
    case Minus =>
      if v.Number? then Success(Number(-v.n)) else Failure(RuntimeError("Operand must be a number"))
    case Bang => Success(Boolean(!IsTruthy(v)))
    case _ => Failure(RuntimeError("Unknown unary operator"))
  }

  predicate IsArithmetic(t: Tokens.TokenType) {
    t == Tokens.Minus || t == Tokens.Star || t == Tokens.Slash
  }

  predicate IsComparison(t: Tokens.TokenType) {
    t == Tokens.Greater || t == Tokens.GreaterEqual || t == Tokens.Less || t == Tokens.LessEqual
  }

  predicate IsEquality(t: Tokens.TokenType) {
    t == Tokens.EqualEqual || t == Tokens.BangEqual
  }

  /** The numeric meaning of a comparison operator. */
  predicate Compares(t: Tokens.TokenType, a: real, b: real)
    requires IsComparison(t)
  {
    if t == Tokens.Greater then a > b
    else if t == Tokens.GreaterEqual then a >= b
    else if t == Tokens.Less then a < b
    else a <= b
  }

  /** `visit_binary_expr`, once both operands have been evaluated. */
  function EvalBinary(op: Tokens.Token, l: Value, r: Value): (res: Result<Value>)
    // `+`: numbers add, strings concatenate, nothing else is accepted
    ensures op.tokenType == Tokens.Plus ==>
      (res.Success? <==> (l.Number? && r.Number?) || (l.String? && r.String?))
    ensures op.tokenType == Tokens.Plus && l.Number? && r.Number? ==> res.value == Number(l.n + r.n)
    ensures op.tokenType == Tokens.Plus && l.String? && r.String? ==>
      res.value.String? && |res.value.s| == |l.s| + |r.s| &&
      res.value.s[..|l.s|] == l.s && res.value.s[|l.s|..] == r.s
    // `-`, `*`, `/` and the comparisons demand two numbers, and `/` a non-zero divisor
    ensures IsArithmetic(op.tokenType) || IsComparison(op.tokenType) ==>
      (res.Success? <==> l.Number? && r.Number? && !(op.tokenType == Tokens.Slash && r.n == 0.0))
    ensures op.tokenType == Tokens.Slash && l.Number? && r.Number? && r.n == 0.0 ==>
      res == Failure(RuntimeError("Division by zero"))
    ensures res.Success? && op.tokenType == Tokens.Minus ==> res.value == Number(l.n - r.n)
    ensures res.Success? && op.tokenType == Tokens.Star ==> res.value == Number(l.n * r.n)
    ensures res.Success? && op.tokenType == Tokens.Slash ==> res.value == Number(l.n / r.n)
    ensures res.Success? && IsComparison(op.tokenType) ==> res.value == Boolean(Compares(op.tokenType, l.n, r.n))
    // equality never fails, for any pair of values
    ensures IsEquality(op.tokenType) ==> res.Success? && res.value.Boolean?
    ensures op.tokenType == Tokens.EqualEqual ==> (res.value.b <==> l == r)
    ensures op.tokenType == Tokens.BangEqual ==> (res.value.b <==> l != r)
    ensures !(op.tokenType == Tokens.Plus || IsArithmetic(op.tokenType) || IsComparison(op.tokenType) || IsEquality(op.tokenType))
      ==> res == Failure(RuntimeError("Unknown binary operator"))
  {
    match op.tokenType
    case Plus =>
      if l.Number? && r.Number? then Success(Number(l.n + r.n))
      else if l.String? && r.String? then Success(String(l.s + r.s))
      else Failure(RuntimeError("Operands must be two numbers or two strings"))
    case Minus =>
      if l.Number? && r.Number? then Success(Number(l.n - r.n)) else Failure(RuntimeError("Operands must be numbers"))
    case Star =>
      if l.Number? && r.Number? then Success(Number(l.n * r.n)) else Failure(RuntimeError("Operands must be numbers"))
    case Slash =>
      if l.Number? && r.Number? then
        if r.n == 0.0 then Failure(RuntimeError("Division by zero")) else Success(Number(l.n / r.n))
      else Failure(RuntimeError("Operands must be numbers"))
    case Greater =>
      if l.Number? && r.Number? then Success(Boolean(l.n > r.n)) else Failure(RuntimeError("Operands must be numbers"))
    case GreaterEqual =>
      if l.Number? && r.Number? then Success(Boolean(l.n >= r.n)) else Failure(RuntimeError("Operands must be numbers"))
    case Less =>
      if l.Number? && r.Number? then Success(Boolean(l.n < r.n)) else Failure(RuntimeError("Operands must be numbers"))
    case LessEqual =>
      if l.Number? && r.Number? then Success(Boolean(l.n <= r.n)) else Failure(RuntimeError("Operands must be numbers"))
    case EqualEqual => Success(Boolean(l == r))
    case BangEqual => Success(Boolean(l != r))
    case _ => Failure(RuntimeError("Unknown binary operator"))
  }

  /** The expressions this revision's evaluator has cases for. */
  predicate Evaluable(e: Ast.Expr) {
    match e
    case Literal(_) => true
    case Grouping(x) => Evaluable(x)
    case Unary(_, x) => Evaluable(x)
    case Binary(l, _, r) => Evaluable(l) && Evaluable(r)
    case _ => false
  }

  /** The expression visitor: operands left to right, the first error aborts. */
  function Evaluate(e: Ast.Expr): (r: Result<Value>)
    requires Evaluable(e)
    ensures r.Success? ==> !r.value.Callable?
  {
    match e
    case Literal(lit) => Success(EvalLiteral(lit))
    case Grouping(x) => Evaluate(x)
    case Unary(op, x) =>
      var v := Evaluate(x);
      if v.Failure? then v else EvalUnary(op, v.value)
    case Binary(left, op, right) =>
      var lv := Evaluate(left);
      if lv.Failure? then lv
      else
        var rv := Evaluate(right);
        if rv.Failure? then rv else EvalBinary(op, lv.value, rv.value)
  }

  /* Properties relating the operations. */

  /** The left operand is evaluated first and its error wins; the right
      operand's error comes next; only then is the operator applied. */
  lemma {:induction false} EvaluationOrder(left: Ast.Expr, op: Tokens.Token, right: Ast.Expr)
    requires Evaluable(left) && Evaluable(right)
    ensures var r := Evaluate(Ast.Binary(left, op, right));
      && (Evaluate(left).Failure? ==> r == Evaluate(left))
      && (Evaluate(left).Success? && Evaluate(right).Failure? ==> r == Evaluate(right))
      && (Evaluate(left).Success? && Evaluate(right).Success? ==>
            r == EvalBinary(op, Evaluate(left).value, Evaluate(right).value))
  {
  }

  /** `!=` is the negation of `==` for every pair of values, mixed types included. */
  lemma {:induction false} NotEqualNegatesEqual(op: Tokens.Token, op': Tokens.Token, l: Value, r: Value)
    requires op.tokenType == Tokens.EqualEqual && op'.tokenType == Tokens.BangEqual
    ensures EvalBinary(op', l, r) == Success(Boolean(!EvalBinary(op, l, r).value.b))
  {
  }

  /** On numbers, `<` and `>=` (and `>` and `<=`) are complementary. */
  lemma {:induction false} ComparisonsComplement(lt: Tokens.Token, ge: Tokens.Token, a: real, b: real)
    requires (lt.tokenType == Tokens.Less && ge.tokenType == Tokens.GreaterEqual)
          || (lt.tokenType == Tokens.Greater && ge.tokenType == Tokens.LessEqual)
    ensures EvalBinary(lt, Number(a), Number(b)).value.b == !EvalBinary(ge, Number(a), Number(b)).value.b
  {
  }

  /** `!` applied twice gives the truthiness of the operand as a Boolean. */
  lemma {:induction false} DoubleBangIsTruthiness(op: Tokens.Token, v: Value)
    requires op.tokenType == Tokens.Bang
    ensures EvalUnary(op, EvalUnary(op, v).value) == Success(Boolean(IsTruthy(v)))
  {
  }

  /** Unary minus is its own inverse on numbers and fails on anything else. */
  lemma {:induction false} NegateTwice(op: Tokens.Token, v: Value)
    requires op.tokenType == Tokens.Minus
    ensures v.Number? ==> EvalUnary(op, EvalUnary(op, v).value) == Success(v)
    ensures !v.Number? ==> EvalUnary(op, v).Failure?
  {
  }

  /** Grouping is transparent, however deeply nested. */
  lemma {:induction false} GroupingTransparent(e: Ast.Expr, depth: nat)
    requires Evaluable(e)
    ensures Evaluable(Nest(e, depth)) && Evaluate(Nest(e, depth)) == Evaluate(e)
  {
    if depth > 0 {
      GroupingTransparent(e, depth - 1);
    }
  }

  /** `e` inside `depth` pairs of parentheses. */
  function Nest(e: Ast.Expr, depth: nat): Ast.Expr {
    if depth == 0 then e else Ast.Grouping(Nest(e, depth - 1))
  }

  /* Cases of tests/test_interpret_simple.rs, written as syntax trees. */

  function Op(t: Tokens.TokenType, lexeme: string): Tokens.Token {
    Tokens.Token(t, lexeme, None, 1)
  }

  function Num(n: real): Ast.Expr {
    Ast.Literal(Ast.Number(n))
  }

  function Str(s: string): Ast.Expr {
    Ast.Literal(Ast.String(s))
  }

  /** `((1234.0 * 0.0) + (10 / 2))` is 5. */
  lemma ArithmeticExample()
    ensures Evaluate(Ast.Binary(Ast.Grouping(Ast.Binary(Num(1234.0), Op(Tokens.Star, "*"), Num(0.0))),
                                Op(Tokens.Plus, "+"),
                                Ast.Grouping(Ast.Binary(Num(10.0), Op(Tokens.Slash, "/"), Num(2.0)))))
            == Success(Number(5.0))
  {
  }

  /** `123 / 0` is a runtime error, not a value. */
  lemma DivisionByZeroExample()
    ensures Evaluate(Ast.Binary(Num(123.0), Op(Tokens.Slash, "/"), Num(0.0)))
            == Failure(RuntimeError("Division by zero"))
  {
  }

  /** `"hello" + 123`, `-"hello"` and `"abc" > "def"` are runtime errors. */
  lemma TypeErrorExamples()
    ensures Evaluate(Ast.Binary(Str("hello"), Op(Tokens.Plus, "+"), Num(123.0))).Failure?
    ensures Evaluate(Ast.Unary(Op(Tokens.Minus, "-"), Str("hello"))).Failure?
    ensures Evaluate(Ast.Binary(Str("abc"), Op(Tokens.Greater, ">"), Str("def"))).Failure?
  {
  }

  /** `!"hello world"` is false, `nil == 1.0` is false, `--3.6` is 3.6. */
  lemma ValueExamples()
    ensures Evaluate(Ast.Unary(Op(Tokens.Bang, "!"), Str("hello world"))) == Success(Boolean(false))
    ensures Evaluate(Ast.Binary(Ast.Literal(Ast.Nil), Op(Tokens.EqualEqual, "=="), Num(1.0))) == Success(Boolean(false))
    ensures Evaluate(Ast.Unary(Op(Tokens.Minus, "-"), Ast.Unary(Op(Tokens.Minus, "-"), Num(3.6)))) == Success(Number(3.6))
  {
  }
}

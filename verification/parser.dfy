/** The recursive-descent parser (src/parser.rs).

    The parser's mutable cursor becomes a position `p` into the token
    sequence that every function takes and returns; its `had_error` flag
    becomes a `flagged` result saying whether the call recorded an error.
    The `unescape` crate call is the parameter `u`, a partial function on
    string literals. Syntax errors keep their kind and message; the line and
    lexeme they are reported with are diagnostics and are dropped. */
module Parser {
  import opened Common
  import opened Tokens
  import Ast

  /** What the parser needs of its input: a final EOF token, so the cursor
      never runs off the end, and literals attached to Number and String
      tokens (the source panics on a Number or String token without one). */
  predicate Ready(ts: seq<Token>) {
    && |ts| > 0
    && ts[|ts| - 1].tokenType == EOF
    && forall i :: 0 <= i < |ts| ==> LiteralAttached(ts[i])
  }

  /** `is_at_end`. */
  predicate IsAtEnd(ts: seq<Token>, p: nat)
    requires p < |ts|
  {
    ts[p].tokenType == EOF
  }

  /** `check`: false at EOF, whatever type is asked for. */
  predicate Check(ts: seq<Token>, p: nat, t: TokenType)
    requires p < |ts|
  {
    if IsAtEnd(ts, p) then false else ts[p].tokenType == t
  }

  /** `advance`: moves one token on, except at EOF. */
  function Advance(ts: seq<Token>, p: nat): (q: nat)
    requires Ready(ts) && p < |ts|
    ensures q < |ts|
    ensures IsAtEnd(ts, p) ==> q == p
    ensures !IsAtEnd(ts, p) ==> q == p + 1
  {
    if !IsAtEnd(ts, p) then p + 1 else p
  }

  /** `match_token`: consumes one token exactly when its type is listed. */
  function MatchToken(ts: seq<Token>, p: nat, types: seq<TokenType>): (q: nat)
    requires Ready(ts) && p < |ts|
    ensures q < |ts|
    ensures q == p + 1 <==> !IsAtEnd(ts, p) && ts[p].tokenType in types
    ensures q == p <==> IsAtEnd(ts, p) || ts[p].tokenType !in types
  {
    if |types| == 0 then p
    else if Check(ts, p, types[0]) then Advance(ts, p)
    else MatchToken(ts, p, types[1..])
  }

  /** The outcome of one parsing function: its result, where the cursor
      stopped, and whether the call recorded an error. */
  datatype Parsed<T> = Parsed(result: Result<T>, pos: nat, flagged: bool)

  function SyntaxError(message: string): Error {
    Error(Syntax, message)
  }

  /** The contract every parsing function keeps: the cursor moves forward
      and stays on the tokens, and a failure is always recorded. */
  predicate Moved<T>(ts: seq<Token>, p: nat, r: Parsed<T>) {
    p <= r.pos < |ts| && (r.result.Failure? ==> r.flagged)
  }

  /** `consume`: the expected token, or a recorded error without moving. */
  function Consume(ts: seq<Token>, p: nat, t: TokenType, message: string): (r: Parsed<Token>)
    requires Ready(ts) && p < |ts|
    ensures Moved(ts, p, r)
    ensures r.result.Success? <==> Check(ts, p, t)
    ensures r.result.Success? ==> r.result.value == ts[p] && r.pos == p + 1 && !r.flagged
    ensures r.result.Failure? ==> r.result.error == SyntaxError(message) && r.pos == p
  {
    if Check(ts, p, t) then Parsed(Success(ts[p]), Advance(ts, p), false)
    else Parsed(Failure(SyntaxError(message)), p, true)
  }

  /* Precedence, stated independently of the parsing functions. */

  /** The operators of binary level `k`, loosest (1, equality) to tightest
      (4, factor). */
  function Operators(k: nat): seq<TokenType> {
    if k == 1 then [BangEqual, EqualEqual]
    else if k == 2 then [Greater, GreaterEqual, Less, LessEqual]
    else if k == 3 then [Minus, Plus]
    else if k == 4 then [Slash, Star]
    else []
  }

  /** The binary level an operator belongs to, or 0. */
  function OpLevel(t: TokenType): (k: nat)
    ensures k <= 4
    ensures 1 <= k ==> t in Operators(k)
    ensures forall j :: 1 <= j <= 4 && t in Operators(j) ==> k == j
  {
    match t
    case BangEqual | EqualEqual => 1
    case Greater | GreaterEqual | Less | LessEqual => 2
    case Minus | Plus => 3
    case Slash | Star => 4
    case _ => 0
  }

  /** How tightly an expression binds: its operator's level for a binary
      expression, 5 for unary and primary expressions. */
  function Level(e: Ast.Expr): nat {
    if e.Binary? then OpLevel(e.operator.tokenType) else 5
  }

  /** A tree the grammar can produce: every binary node's left child binds
      at least as tightly as it (left associativity) and its right child
      strictly more tightly; a unary operand is unary or primary. */
  predicate WellPrecedenced(e: Ast.Expr) {
    match e
    case Binary(l, op, r) =>
      1 <= OpLevel(op.tokenType) <= 4 && Level(l) >= OpLevel(op.tokenType) && Level(r) > OpLevel(op.tokenType)
      && WellPrecedenced(l) && WellPrecedenced(r)
    case Unary(op, r) => op.tokenType in [Bang, Minus] && Level(r) == 5 && WellPrecedenced(r)
    case Grouping(x) => WellPrecedenced(x)
    case Literal(_) => true
    case Variable(_) => true
    case _ => false
  }

  /** A successful expression parse at binary level `k` or tighter. */
  predicate ExprAt(r: Parsed<Ast.Expr>, k: nat) {
    r.result.Success? ==> WellPrecedenced(r.result.value) && Level(r.result.value) >= k
  }

  /* Expressions. */

  /** `expression`. */
  function Expression(ts: seq<Token>, p: nat, u: string -> Option<string>): (r: Parsed<Ast.Expr>)
    requires Ready(ts) && p < |ts|
    ensures Moved(ts, p, r) && (r.result.Success? ==> r.pos > p)
    ensures ExprAt(r, 1)
    decreases |ts| - p, 11
  {
    Binary(ts, p, u, 1)
  }

  /** The operand of binary level `k`: the next level, or `unary` below factor. */
  function Operand(ts: seq<Token>, p: nat, u: string -> Option<string>, k: nat): (r: Parsed<Ast.Expr>)
    requires Ready(ts) && p < |ts| && 1 <= k <= 4
    ensures Moved(ts, p, r) && (r.result.Success? ==> r.pos > p)
    ensures ExprAt(r, k + 1)
    decreases |ts| - p, 2 * (5 - k) + 1
  {
    if k == 4 then Unary(ts, p, u) else Binary(ts, p, u, k + 1)
  }

  /** `equality`, `comparison`, `term` and `factor` (levels 1 to 4): an
      operand followed by any number of operator-operand pairs. */
  function Binary(ts: seq<Token>, p: nat, u: string -> Option<string>, k: nat): (r: Parsed<Ast.Expr>)
    requires Ready(ts) && p < |ts| && 1 <= k <= 4
    ensures Moved(ts, p, r) && (r.result.Success? ==> r.pos > p)
    ensures ExprAt(r, k)
    decreases |ts| - p, 2 * (5 - k) + 2
  {
    var first := Operand(ts, p, u, k);
    if first.result.Failure? then first
    else BinaryRest(ts, first.pos, u, k, first.result.value, first.flagged)
  }

  /** The `while match_token(..)` loop of a binary level: the expression
      built so far becomes the left child of the next operator. */
  function BinaryRest(ts: seq<Token>, p: nat, u: string -> Option<string>, k: nat,
                      left: Ast.Expr, flagged: bool): (r: Parsed<Ast.Expr>)
    requires Ready(ts) && p < |ts| && 1 <= k <= 4
    requires WellPrecedenced(left) && Level(left) >= k
    ensures Moved(ts, p, r) && (flagged ==> r.flagged)
    ensures ExprAt(r, k)
    ensures r.result.Success? && r.pos == p ==> r.result.value == left && r.flagged == flagged
    decreases |ts| - p, 2 * (5 - k) + 2
  {
    var q := MatchToken(ts, p, Operators(k));
    if q == p then Parsed(Success(left), p, flagged)
    else
      var op := ts[p];
      var right := Operand(ts, q, u, k);
      if right.result.Failure? then Parsed(right.result, right.pos, true)
      else BinaryRest(ts, right.pos, u, k, Ast.Binary(left, op, right.result.value), flagged || right.flagged)
  }

  /** `unary`: prefix `!` and `-` nest to the right; otherwise `primary`. */
  function Unary(ts: seq<Token>, p: nat, u: string -> Option<string>): (r: Parsed<Ast.Expr>)
    requires Ready(ts) && p < |ts|
    ensures Moved(ts, p, r) && (r.result.Success? ==> r.pos > p)
    ensures ExprAt(r, 5)
    ensures r.result.Success? && !IsAtEnd(ts, p) && ts[p].tokenType in [Bang, Minus] ==>
      r.result.value.Unary? && r.result.value.operator == ts[p]
    decreases |ts| - p, 1
  {
    var q := MatchToken(ts, p, [Bang, Minus]);
    if q > p then
      var right := Unary(ts, q, u);
      if right.result.Failure? then right
      else Parsed(Success(Ast.Unary(ts[p], right.result.value)), right.pos, right.flagged)
    else Primary(ts, p, u)
  }

  /** `primary`: literals, variables and groupings. A grouping skips one
      token after its inner expression without checking that it is `)`; a
      string the unescaper rejects is kept raw and recorded as an error. */
  function Primary(ts: seq<Token>, p: nat, u: string -> Option<string>): (r: Parsed<Ast.Expr>)
    requires Ready(ts) && p < |ts|
    ensures Moved(ts, p, r) && (r.result.Success? ==> r.pos > p)
    ensures ExprAt(r, 5)
    ensures r.result.Success? ==> !r.result.value.Unary?
    ensures r.result.Failure? && !(ts[p].tokenType == LeftParen) ==>
      r.result.error == SyntaxError("Expected expression") && r.pos == p
    ensures ts[p].tokenType == TokenType.String && u(ts[p].literal.value.s).None? ==>
      r.result == Success(Ast.Literal(Ast.LiteralValue.String(ts[p].literal.value.s))) && r.flagged
    decreases |ts| - p, 0
  {
    var t := ts[p];
    match t.tokenType
    case False => Parsed(Success(Ast.Literal(Ast.Boolean(false))), p + 1, false)
    case True => Parsed(Success(Ast.Literal(Ast.Boolean(true))), p + 1, false)
    case Nil => Parsed(Success(Ast.Literal(Ast.LiteralValue.Nil)), p + 1, false)
    case Identifier => Parsed(Success(Ast.Variable(t)), p + 1, false)
    case Number => Parsed(Success(Ast.Literal(Ast.LiteralValue.Number(t.literal.value.n))), p + 1, false)
    case String =>
      var raw := t.literal.value.s;
      if u(raw).Some? then Parsed(Success(Ast.Literal(Ast.LiteralValue.String(u(raw).value))), p + 1, false)
      else Parsed(Success(Ast.Literal(Ast.LiteralValue.String(raw))), p + 1, true)
    case LeftParen =>
      var inner := Expression(ts, p + 1, u);
      if inner.result.Failure? then inner
      else Parsed(Success(Ast.Grouping(inner.result.value)), Advance(ts, inner.pos), inner.flagged)
    case _ => Parsed(Failure(SyntaxError("Expected expression")), p, true)
  }

  /** `parse_expr`: one expression, or None after a syntax error. */
  function ParseExpr(ts: seq<Token>, u: string -> Option<string>): (r: (Option<Ast.Expr>, bool))
    requires Ready(ts)
    ensures r.0.None? ==> r.1
    ensures r.0.Some? ==> WellPrecedenced(r.0.value)
  {
    var e := Expression(ts, 0, u);
    match e.result
    case Success(v) => (Some(v), e.flagged)
    case Failure(_) => (None, e.flagged)
  }

  /* Error recovery. */

  /** Statement keywords `synchronize` stops in front of. */
  predicate StatementKeyword(t: TokenType) {
    t in [Class, Fun, Var, For, If, While, Print, Return]
  }

  /** A position where panic-mode recovery may resume: EOF, right after a
      semicolon, or in front of a statement keyword. */
  predicate SyncPoint(ts: seq<Token>, j: nat)
    requires j < |ts|
  {
    IsAtEnd(ts, j) || (j > 0 && ts[j - 1].tokenType == Semicolon) || StatementKeyword(ts[j].tokenType)
  }

  /** The `while` loop of `synchronize`. */
  function SyncLoop(ts: seq<Token>, p: nat): (q: nat)
    requires Ready(ts) && p < |ts| && (p > 0 || IsAtEnd(ts, p))
    ensures p <= q < |ts| && SyncPoint(ts, q)
    ensures forall j :: p <= j < q ==> !SyncPoint(ts, j)
    decreases |ts| - p
  {
    if IsAtEnd(ts, p) then p
    else if ts[p - 1].tokenType == Semicolon then p
    else if StatementKeyword(ts[p].tokenType) then p
    else SyncLoop(ts, p + 1)
  }

  /** `synchronize`: skips the offending token, then stops at the first
      sync point. */
  function Synchronize(ts: seq<Token>, p: nat): (q: nat)
    requires Ready(ts) && p < |ts|
    ensures Advance(ts, p) <= q < |ts| && SyncPoint(ts, q)
    ensures forall j :: Advance(ts, p) <= j < q ==> !SyncPoint(ts, j)
  {
    SyncLoop(ts, Advance(ts, p))
  }

  /* Statements. */

  /** The statements this parser produces: variable declarations, print
      statements and expression statements over well-precedenced
      expressions. */
  predicate ParsedStmt(s: Ast.Stmt) {
    match s
    case Var(_, init) => init.Some? ==> WellPrecedenced(init.value)
    case Print(e) => WellPrecedenced(e)
    case Expression(e) => WellPrecedenced(e)
    case _ => false
  }

  /** The outcome of one statement parse. */
  predicate StmtOk(ts: seq<Token>, p: nat, r: Parsed<Ast.Stmt>) {
    Moved(ts, p, r) && (r.result.Success? ==> r.pos > p && ParsedStmt(r.result.value))
  }

  /** `var_declaration`, entered after the `var` keyword. */
  function VarDeclaration(ts: seq<Token>, p: nat, u: string -> Option<string>): (r: Parsed<Ast.Stmt>)
    requires Ready(ts) && p < |ts|
    ensures StmtOk(ts, p, r)
    ensures r.result.Success? ==> r.result.value.Var? && r.result.value.name == ts[p]
    ensures !Check(ts, p, Identifier) ==> r.result == Failure(SyntaxError("Expect variable name"))
  {
    var name := Consume(ts, p, Identifier, "Expect variable name");
    if name.result.Failure? then Parsed(Failure(name.result.error), name.pos, true)
    else
      var q := MatchToken(ts, name.pos, [Equal]);
      if q > name.pos then
        var init := Expression(ts, q, u);
        if init.result.Failure? then Parsed(Failure(init.result.error), init.pos, true)
        else
          var semi := Consume(ts, init.pos, Semicolon, "Expect ';' after variable declaration");
          if semi.result.Failure? then Parsed(Failure(semi.result.error), semi.pos, true)
          else Parsed(Success(Ast.Var(name.result.value, Some(init.result.value))), semi.pos, init.flagged)
      else
        var semi := Consume(ts, name.pos, Semicolon, "Expect ';' after variable declaration");
        if semi.result.Failure? then Parsed(Failure(semi.result.error), semi.pos, true)
        else Parsed(Success(Ast.Var(name.result.value, None)), semi.pos, false)
  }

  /** `print_statement`, entered after the `print` keyword. */
  function PrintStatement(ts: seq<Token>, p: nat, u: string -> Option<string>): (r: Parsed<Ast.Stmt>)
    requires Ready(ts) && p < |ts|
    ensures StmtOk(ts, p, r)
    ensures r.result.Success? ==> r.result.value.Print? && ts[r.pos - 1].tokenType == Semicolon
  {
    var value := Expression(ts, p, u);
    if value.result.Failure? then Parsed(Failure(value.result.error), value.pos, true)
    else
      var semi := Consume(ts, value.pos, Semicolon, "Expect ';' after value");
      if semi.result.Failure? then Parsed(Failure(semi.result.error), semi.pos, true)
      else Parsed(Success(Ast.Print(value.result.value)), semi.pos, value.flagged)
  }

  /** `expression_statement`. */
  function ExpressionStatement(ts: seq<Token>, p: nat, u: string -> Option<string>): (r: Parsed<Ast.Stmt>)
    requires Ready(ts) && p < |ts|
    ensures StmtOk(ts, p, r)
    ensures r.result.Success? ==> r.result.value.Expression? && ts[r.pos - 1].tokenType == Semicolon
  {
    var expr := Expression(ts, p, u);
    if expr.result.Failure? then Parsed(Failure(expr.result.error), expr.pos, true)
    else
      var semi := Consume(ts, expr.pos, Semicolon, "Expect ';' after expression");
      if semi.result.Failure? then Parsed(Failure(semi.result.error), semi.pos, true)
      else Parsed(Success(Ast.Expression(expr.result.value)), semi.pos, expr.flagged)
  }

  /** `statement`: a print statement after `print`, else an expression statement. */
  function Statement(ts: seq<Token>, p: nat, u: string -> Option<string>): (r: Parsed<Ast.Stmt>)
    requires Ready(ts) && p < |ts|
    ensures StmtOk(ts, p, r)
    ensures r.result.Success? ==> !r.result.value.Var?
    ensures Check(ts, p, Print) ==> r == PrintStatement(ts, p + 1, u)
    ensures !Check(ts, p, Print) ==> r == ExpressionStatement(ts, p, u)
  {
    var q := MatchToken(ts, p, [Print]);
    if q > p then PrintStatement(ts, q, u) else ExpressionStatement(ts, p, u)
  }

  /** What `declaration` leaves behind. */
  datatype Declared = Declared(stmt: Option<Ast.Stmt>, pos: nat, flagged: bool)

  /** `declaration`: a statement, or nothing after a recorded error and
      recovery. It always consumes at least one token. */
  function Declaration(ts: seq<Token>, p: nat, u: string -> Option<string>): (r: Declared)
    requires Ready(ts) && p < |ts| && !IsAtEnd(ts, p)
    ensures p < r.pos < |ts|
    ensures r.stmt.None? ==> r.flagged && SyncPoint(ts, r.pos)
    ensures r.stmt.Some? ==> ParsedStmt(r.stmt.value)
    ensures r.stmt.Some? && r.stmt.value.Var? <==> r.stmt.Some? && Check(ts, p, Var)
  {
    if Check(ts, p, Var) then
      var s := VarDeclaration(ts, p + 1, u);
      if s.result.Success? then Declared(Some(s.result.value), s.pos, s.flagged)
      else Declared(None, Synchronize(ts, s.pos), true)
    else
      var s := Statement(ts, p, u);
      if s.result.Success? then Declared(Some(s.result.value), s.pos, s.flagged)
      else Declared(None, Synchronize(ts, s.pos), true)
  }

  /** The loop of `statements`: declarations until EOF, in source order,
      dropping the ones that failed. */
  function Statements(ts: seq<Token>, p: nat, u: string -> Option<string>): (r: (seq<Ast.Stmt>, bool))
    requires Ready(ts) && p < |ts|
    ensures forall i :: 0 <= i < |r.0| ==> ParsedStmt(r.0[i])
    ensures IsAtEnd(ts, p) ==> r == ([], false)
    decreases |ts| - p
  {
    if IsAtEnd(ts, p) then ([], false)
    else
      var d := Declaration(ts, p, u);
      var rest := Statements(ts, d.pos, u);
      (Prepend(d.stmt, rest.0), d.flagged || rest.1)
  }

  /** The statement list with the declaration's statement, if any, in front. */
  function Prepend(s: Option<Ast.Stmt>, rest: seq<Ast.Stmt>): (r: seq<Ast.Stmt>)
    requires s.Some? ==> ParsedStmt(s.value)
    requires forall i :: 0 <= i < |rest| ==> ParsedStmt(rest[i])
    ensures forall i :: 0 <= i < |r| ==> ParsedStmt(r[i])
    ensures s.None? ==> r == rest
    ensures s.Some? ==> |r| == |rest| + 1 && r[0] == s.value && r[1..] == rest
  {
    if s.None? then rest
    else
      var r := [s.value] + rest;
      assert forall i :: 1 <= i < |r| ==> r[i] == rest[i - 1];
      r
  }

  /** A declaration that parses is kept, in front of the ones after it. */
  lemma {:induction false} DeclarationKept(ts: seq<Token>, p: nat, u: string -> Option<string>)
    requires Ready(ts) && p < |ts| && !IsAtEnd(ts, p)
    requires Declaration(ts, p, u).stmt.Some?
    ensures var d := Declaration(ts, p, u);
      var rest := Statements(ts, d.pos, u);
      Statements(ts, p, u) == ([d.stmt.value] + rest.0, d.flagged || rest.1)
  {
    var d := Declaration(ts, p, u);
    var rest := Statements(ts, d.pos, u);
    var r := Prepend(d.stmt, rest.0);
    assert r == [d.stmt.value] + rest.0;
  }

  /** A declaration that fails is dropped, parsing resumes at the sync
      point, and the error is recorded. */
  lemma {:induction false} DeclarationDropped(ts: seq<Token>, p: nat, u: string -> Option<string>)
    requires Ready(ts) && p < |ts| && !IsAtEnd(ts, p)
    requires Declaration(ts, p, u).stmt.None?
    ensures var d := Declaration(ts, p, u);
      Statements(ts, p, u) == (Statements(ts, d.pos, u).0, true) && SyncPoint(ts, d.pos)
  {
  }

  /** An expression followed by `;` at a token that is neither `var` nor
      `print` is an expression statement. */
  lemma {:induction false} ExpressionStatementParsed(ts: seq<Token>, p: nat, u: string -> Option<string>, e: Ast.Expr, q: nat, f: bool)
    requires Ready(ts) && p < |ts| && !IsAtEnd(ts, p)
    requires !Check(ts, p, Var) && !Check(ts, p, Print)
    requires Expression(ts, p, u) == Parsed(Success(e), q, f)
    requires q < |ts| && ts[q].tokenType == Semicolon
    ensures Declaration(ts, p, u) == Declared(Some(Ast.Expression(e)), q + 1, f)
  {
    assert Consume(ts, q, Semicolon, "Expect ';' after expression") == Parsed(Success(ts[q]), q + 1, false);
    assert Statement(ts, p, u) == Parsed(Success(Ast.Expression(e)), q + 1, f);
  }

  /** An expression statement missing its `;` is dropped and parsing resumes
      at the next synchronisation point. */
  lemma {:induction false} ExpressionStatementUnterminated(ts: seq<Token>, p: nat, u: string -> Option<string>, e: Ast.Expr, q: nat, f: bool)
    requires Ready(ts) && p < |ts| && !IsAtEnd(ts, p)
    requires !Check(ts, p, Var) && !Check(ts, p, Print)
    requires Expression(ts, p, u) == Parsed(Success(e), q, f)
    requires q < |ts| && ts[q].tokenType != Semicolon
    ensures Declaration(ts, p, u) == Declared(None, Synchronize(ts, q), true)
  {
    assert Consume(ts, q, Semicolon, "Expect ';' after expression").pos == q;
    assert Statement(ts, p, u).result.Failure? && Statement(ts, p, u).pos == q;
  }

  /** What `primary` builds from a literal or identifier token: one node,
      one token consumed, and an error recorded only for a string the
      unescaper rejects. */
  lemma {:induction false} PrimaryLeaves(ts: seq<Token>, p: nat, u: string -> Option<string>)
    requires Ready(ts) && p < |ts|
    ensures ts[p].tokenType == False ==> Primary(ts, p, u) == Parsed(Success(Ast.Literal(Ast.Boolean(false))), p + 1, false)
    ensures ts[p].tokenType == True ==> Primary(ts, p, u) == Parsed(Success(Ast.Literal(Ast.Boolean(true))), p + 1, false)
    ensures ts[p].tokenType == TokenType.Nil ==> Primary(ts, p, u) == Parsed(Success(Ast.Literal(Ast.LiteralValue.Nil)), p + 1, false)
    ensures ts[p].tokenType == Identifier ==> Primary(ts, p, u) == Parsed(Success(Ast.Variable(ts[p])), p + 1, false)
    ensures ts[p].tokenType == TokenType.Number ==>
      Primary(ts, p, u) == Parsed(Success(Ast.Literal(Ast.LiteralValue.Number(ts[p].literal.value.n))), p + 1, false)
    ensures ts[p].tokenType == TokenType.String ==>
      var raw := ts[p].literal.value.s;
      && (u(raw).Some? ==> Primary(ts, p, u) == Parsed(Success(Ast.Literal(Ast.LiteralValue.String(u(raw).value))), p + 1, false))
      && (u(raw).None? ==> Primary(ts, p, u) == Parsed(Success(Ast.Literal(Ast.LiteralValue.String(raw))), p + 1, true))
  {
  }

  /** A grouping wraps the expression after `(` and then skips one token,
      whatever it is: the closing parenthesis is never checked. */
  lemma {:induction false} PrimaryGrouping(ts: seq<Token>, p: nat, u: string -> Option<string>)
    requires Ready(ts) && p < |ts| && ts[p].tokenType == LeftParen
    ensures p + 1 < |ts|
    ensures var inner := Expression(ts, p + 1, u);
      && (inner.result.Failure? ==> Primary(ts, p, u) == inner)
      && (inner.result.Success? ==>
            Primary(ts, p, u) == Parsed(Success(Ast.Grouping(inner.result.value)), Advance(ts, inner.pos), inner.flagged))
      && (inner.result.Success? && !IsAtEnd(ts, inner.pos) ==> Primary(ts, p, u).pos == inner.pos + 1)
  {
  }

  /** Every other token is "Expected expression", with nothing consumed. */
  lemma {:induction false} PrimaryRejects(ts: seq<Token>, p: nat, u: string -> Option<string>)
    requires Ready(ts) && p < |ts|
    requires ts[p].tokenType !in [False, True, TokenType.Nil, Identifier, TokenType.Number, TokenType.String, LeftParen]
    ensures Primary(ts, p, u) == Parsed(Failure(SyntaxError("Expected expression")), p, true)
  {
  }

  /** `unary`: a token other than `!` and `-` is parsed by `primary`; `!` or
      `-` applies to the unary expression after it, so prefixes nest to the
      right, and an error in the operand is the result. */
  lemma {:induction false} UnaryCases(ts: seq<Token>, p: nat, u: string -> Option<string>)
    requires Ready(ts) && p < |ts|
    ensures IsAtEnd(ts, p) || ts[p].tokenType !in [Bang, Minus] ==> Unary(ts, p, u) == Primary(ts, p, u)
    ensures !IsAtEnd(ts, p) && ts[p].tokenType in [Bang, Minus] ==>
      var x := Unary(ts, p + 1, u);
      && (x.result.Failure? ==> Unary(ts, p, u) == x)
      && (x.result.Success? ==> Unary(ts, p, u) == Parsed(Success(Ast.Unary(ts[p], x.result.value)), x.pos, x.flagged))
  {
  }

  /** `var_declaration` once the initializer after `name =` has parsed to
      `e`, ending at `q`. */
  lemma {:induction false} VarInitializedBy(ts: seq<Token>, p: nat, u: string -> Option<string>, e: Ast.Expr, q: nat, f: bool)
    requires Ready(ts) && p + 2 < |ts|
    requires ts[p].tokenType == Identifier && ts[p + 1].tokenType == Equal
    requires Expression(ts, p + 2, u) == Parsed(Success(e), q, f) && q < |ts|
    ensures ts[q].tokenType == Semicolon ==>
      VarDeclaration(ts, p, u) == Parsed(Success(Ast.Var(ts[p], Some(e))), q + 1, f)
    ensures ts[q].tokenType != Semicolon ==>
      VarDeclaration(ts, p, u) == Parsed(Failure(SyntaxError("Expect ';' after variable declaration")), q, true)
  {
    assert MatchToken(ts, p + 1, [Equal]) == p + 2;
  }

  /** `var_declaration` after `name =`: the initializer's error, or the
      declaration when `;` follows, or "Expect ';' after variable
      declaration" at the token that is not `;`. */
  lemma {:induction false} VarWithInitializer(ts: seq<Token>, p: nat, u: string -> Option<string>)
    requires Ready(ts) && p + 2 < |ts|
    requires ts[p].tokenType == Identifier && ts[p + 1].tokenType == Equal
    ensures var init := Expression(ts, p + 2, u);
      && (init.result.Failure? ==> VarDeclaration(ts, p, u) == Parsed(Failure(init.result.error), init.pos, true))
      && (init.result.Success? && ts[init.pos].tokenType == Semicolon ==>
            VarDeclaration(ts, p, u) == Parsed(Success(Ast.Var(ts[p], Some(init.result.value))), init.pos + 1, init.flagged))
      && (init.result.Success? && ts[init.pos].tokenType != Semicolon ==>
            VarDeclaration(ts, p, u) == Parsed(Failure(SyntaxError("Expect ';' after variable declaration")), init.pos, true))
  {
    var init := Expression(ts, p + 2, u);
    if init.result.Success? {
      VarInitializedBy(ts, p, u, init.result.value, init.pos, init.flagged);
    } else {
      assert MatchToken(ts, p + 1, [Equal]) == p + 2;
    }
  }

  /** `var_declaration` with no `=` after the name: `;` must follow. */
  lemma {:induction false} VarWithoutInitializer(ts: seq<Token>, p: nat, u: string -> Option<string>)
    requires Ready(ts) && p + 1 < |ts|
    requires ts[p].tokenType == Identifier && ts[p + 1].tokenType != Equal
    ensures ts[p + 1].tokenType == Semicolon ==>
      VarDeclaration(ts, p, u) == Parsed(Success(Ast.Var(ts[p], None)), p + 2, false)
    ensures ts[p + 1].tokenType != Semicolon ==>
      VarDeclaration(ts, p, u) == Parsed(Failure(SyntaxError("Expect ';' after variable declaration")), p + 1, true)
  {
    assert Consume(ts, p, Identifier, "Expect variable name") == Parsed(Success(ts[p]), p + 1, false);
    assert MatchToken(ts, p + 1, [Equal]) == p + 1;
    var semi := Consume(ts, p + 1, Semicolon, "Expect ';' after variable declaration");
    if ts[p + 1].tokenType == Semicolon {
      assert semi == Parsed(Success(ts[p + 1]), p + 2, false);
    } else {
      assert semi == Parsed(Failure(SyntaxError("Expect ';' after variable declaration")), p + 1, true);
    }
  }

  /** `print_statement`: the expression's error, or the print statement
      when `;` follows, or "Expect ';' after value". */
  lemma {:induction false} PrintStatementCases(ts: seq<Token>, p: nat, u: string -> Option<string>)
    requires Ready(ts) && p < |ts|
    ensures var value := Expression(ts, p, u);
      && (value.result.Failure? ==> PrintStatement(ts, p, u) == Parsed(Failure(value.result.error), value.pos, true))
      && (value.result.Success? && ts[value.pos].tokenType == Semicolon ==>
            PrintStatement(ts, p, u) == Parsed(Success(Ast.Print(value.result.value)), value.pos + 1, value.flagged))
      && (value.result.Success? && ts[value.pos].tokenType != Semicolon ==>
            PrintStatement(ts, p, u) == Parsed(Failure(SyntaxError("Expect ';' after value")), value.pos, true))
  {
  }

  /** `declaration` after `var`: the variable declaration's statement, or
      nothing and a resynchronised position when it fails. */
  lemma {:induction false} DeclarationOfVar(ts: seq<Token>, p: nat, u: string -> Option<string>)
    requires Ready(ts) && p < |ts| && !IsAtEnd(ts, p) && ts[p].tokenType == Var
    ensures var s := VarDeclaration(ts, p + 1, u);
      && (s.result.Success? ==> Declaration(ts, p, u) == Declared(Some(s.result.value), s.pos, s.flagged))
      && (s.result.Failure? ==> Declaration(ts, p, u) == Declared(None, Synchronize(ts, s.pos), true))
  {
  }

  /** `declaration` after `print`: likewise for the print statement. */
  lemma {:induction false} DeclarationOfPrint(ts: seq<Token>, p: nat, u: string -> Option<string>)
    requires Ready(ts) && p < |ts| && !IsAtEnd(ts, p) && ts[p].tokenType == Print
    ensures var s := PrintStatement(ts, p + 1, u);
      && (s.result.Success? ==> Declaration(ts, p, u) == Declared(Some(s.result.value), s.pos, s.flagged))
      && (s.result.Failure? ==> Declaration(ts, p, u) == Declared(None, Synchronize(ts, s.pos), true))
  {
  }

  /** `var name = e;` is one variable declaration. */
  lemma {:induction false} VarDeclarationParsed(ts: seq<Token>, p: nat, u: string -> Option<string>, e: Ast.Expr, q: nat, f: bool)
    requires Ready(ts) && p + 3 < |ts|
    requires ts[p].tokenType == Var && ts[p + 1].tokenType == Identifier && ts[p + 2].tokenType == Equal
    requires Expression(ts, p + 3, u) == Parsed(Success(e), q, f)
    requires q < |ts| && ts[q].tokenType == Semicolon
    ensures Declaration(ts, p, u) == Declared(Some(Ast.Var(ts[p + 1], Some(e))), q + 1, f)
  {
    VarInitializedBy(ts, p + 1, u, e, q, f);
    DeclarationOfVar(ts, p, u);
  }

  /** `var name = e` without its `;` is dropped, and parsing resumes at the
      next synchronisation point. */
  lemma {:induction false} VarDeclarationUnterminated(ts: seq<Token>, p: nat, u: string -> Option<string>, e: Ast.Expr, q: nat, f: bool)
    requires Ready(ts) && p + 3 < |ts|
    requires ts[p].tokenType == Var && ts[p + 1].tokenType == Identifier && ts[p + 2].tokenType == Equal
    requires Expression(ts, p + 3, u) == Parsed(Success(e), q, f)
    requires q < |ts| && ts[q].tokenType != Semicolon
    ensures Declaration(ts, p, u) == Declared(None, Synchronize(ts, q), true)
  {
    VarInitializedBy(ts, p + 1, u, e, q, f);
    DeclarationOfVar(ts, p, u);
  }

  /** `print e;` is one print statement. */
  lemma {:induction false} PrintStatementParsed(ts: seq<Token>, p: nat, u: string -> Option<string>, e: Ast.Expr, q: nat, f: bool)
    requires Ready(ts) && p + 1 < |ts| && ts[p].tokenType == Print
    requires Expression(ts, p + 1, u) == Parsed(Success(e), q, f)
    requires q < |ts| && ts[q].tokenType == Semicolon
    ensures Declaration(ts, p, u) == Declared(Some(Ast.Print(e)), q + 1, f)
  {
    PrintStatementCases(ts, p + 1, u);
    DeclarationOfPrint(ts, p, u);
  }

  /** `print e` without its `;` is dropped, and parsing resumes at the next
      synchronisation point. */
  lemma {:induction false} PrintStatementUnterminated(ts: seq<Token>, p: nat, u: string -> Option<string>, e: Ast.Expr, q: nat, f: bool)
    requires Ready(ts) && p + 1 < |ts| && ts[p].tokenType == Print
    requires Expression(ts, p + 1, u) == Parsed(Success(e), q, f)
    requires q < |ts| && ts[q].tokenType != Semicolon
    ensures Declaration(ts, p, u) == Declared(None, Synchronize(ts, q), true)
  {
    PrintStatementCases(ts, p + 1, u);
    DeclarationOfPrint(ts, p, u);
  }

  /** What `parse` returns: the program as one block, and `had_error`. */
  datatype ParseOutcome = ParseOutcome(program: Ast.Stmt, hadError: bool)

  /** `parse`: always a block of the declarations that parsed. */
  function Parse(ts: seq<Token>, u: string -> Option<string>): (r: ParseOutcome)
    requires Ready(ts)
    ensures r.program.Block?
    ensures forall i :: 0 <= i < |r.program.statements| ==> ParsedStmt(r.program.statements[i])
  {
    var (stmts, flagged) := Statements(ts, 0, u);
    ParseOutcome(Ast.Block(stmts), flagged)
  }

  /* How a binary level proceeds, one step at a time. */

  /** A binary level's loop consumes the next token exactly when it is one
      of the level's operators. */
  lemma {:induction false} OperatorMatches(ts: seq<Token>, p: nat, k: nat)
    requires Ready(ts) && p < |ts| && 1 <= k <= 4
    ensures ts[p].tokenType in Operators(k) ==> MatchToken(ts, p, Operators(k)) == p + 1
    ensures ts[p].tokenType !in Operators(k) ==> MatchToken(ts, p, Operators(k)) == p
  {
    assert EOF !in Operators(k);
  }

  /** The loop of a binary level stops, keeping the tree built so far, at
      any token that is not one of the level's operators. */
  lemma {:induction false} BinaryRestStops(ts: seq<Token>, p: nat, u: string -> Option<string>, k: nat, left: Ast.Expr, flagged: bool)
    requires Ready(ts) && p < |ts| && 1 <= k <= 4
    requires WellPrecedenced(left) && Level(left) >= k
    requires ts[p].tokenType !in Operators(k)
    ensures BinaryRest(ts, p, u, k, left, flagged) == Parsed(Success(left), p, flagged)
  {
    OperatorMatches(ts, p, k);
  }

  /** At an operator of the level, the tree so far becomes the left child
      and the loop goes on after the next operand. */
  lemma {:induction false} BinaryRestSteps(ts: seq<Token>, p: nat, u: string -> Option<string>, k: nat, left: Ast.Expr, flagged: bool)
    requires Ready(ts) && p + 1 < |ts| && 1 <= k <= 4
    requires WellPrecedenced(left) && Level(left) >= k
    requires ts[p].tokenType in Operators(k)
    requires Operand(ts, p + 1, u, k).result.Success?
    ensures var r := Operand(ts, p + 1, u, k);
      BinaryRest(ts, p, u, k, left, flagged)
      == BinaryRest(ts, r.pos, u, k, Ast.Binary(left, ts[p], r.result.value), flagged || r.flagged)
  {
    OperatorMatches(ts, p, k);
  }

  /** At an operator of the level whose operand fails, the loop ends with
      the operand's error recorded. */
  lemma {:induction false} BinaryRestFails(ts: seq<Token>, p: nat, u: string -> Option<string>, k: nat, left: Ast.Expr, flagged: bool)
    requires Ready(ts) && p + 1 < |ts| && 1 <= k <= 4
    requires WellPrecedenced(left) && Level(left) >= k
    requires ts[p].tokenType in Operators(k)
    requires Operand(ts, p + 1, u, k).result.Failure?
    ensures var r := Operand(ts, p + 1, u, k);
      BinaryRest(ts, p, u, k, left, flagged) == Parsed(r.result, r.pos, true)
  {
    OperatorMatches(ts, p, k);
  }

  /** When no operator of level `j` follows, parsing at level `j` gives the
      same tree as parsing at the next tighter level. */
  lemma {:induction false} BinaryLoosensOnce(ts: seq<Token>, p: nat, u: string -> Option<string>, j: nat)
    requires Ready(ts) && p < |ts| && 1 <= j < 4
    requires Binary(ts, p, u, j + 1).result.Success?
    requires ts[Binary(ts, p, u, j + 1).pos].tokenType !in Operators(j)
    ensures Binary(ts, p, u, j) == Binary(ts, p, u, j + 1)
  {
    var r := Binary(ts, p, u, j + 1);
    assert Operand(ts, p, u, j) == r;
    BinaryRestStops(ts, r.pos, u, j, r.result.value, r.flagged);
  }

  /** When no operator of a looser level follows, parsing at the looser
      level gives the same tree as parsing at the tighter one. */
  lemma {:induction false} BinaryLoosens(ts: seq<Token>, p: nat, u: string -> Option<string>, j: nat, k: nat)
    requires Ready(ts) && p < |ts| && 1 <= j <= k <= 4
    requires Binary(ts, p, u, k).result.Success?
    requires OpLevel(ts[Binary(ts, p, u, k).pos].tokenType) < j
    ensures Binary(ts, p, u, j) == Binary(ts, p, u, k)
    decreases k - j
  {
    if j < k {
      BinaryLoosens(ts, p, u, j + 1, k);
      BinaryLoosensOnce(ts, p, u, j);
    }
  }

  /* Examples. */

  function Tok(t: TokenType, lexeme: string): Token {
    Token(t, lexeme, None, 1)
  }

  function NumTok(n: real, lexeme: string): Token {
    Token(TokenType.Number, lexeme, Some(Literal.Number(n)), 1)
  }

  function Num(n: real): Ast.Expr {
    Ast.Literal(Ast.LiteralValue.Number(n))
  }

  /** A number token is a complete unary expression. */
  lemma {:induction false} NumberUnary(ts: seq<Token>, p: nat, u: string -> Option<string>)
    requires Ready(ts) && p + 1 < |ts| && ts[p].tokenType == TokenType.Number
    ensures Operand(ts, p, u, 4) == Parsed(Success(Num(ts[p].literal.value.n)), p + 1, false)
    ensures Unary(ts, p, u) == Operand(ts, p, u, 4)
  {
    assert Primary(ts, p, u) == Parsed(Success(Num(ts[p].literal.value.n)), p + 1, false);
    assert Unary(ts, p, u) == Primary(ts, p, u);
  }

  /** A number followed by no operator of level `k` or tighter parses, at
      level `k`, to that number alone. */
  lemma {:induction false} NumberAt(ts: seq<Token>, p: nat, u: string -> Option<string>, k: nat)
    requires Ready(ts) && p + 1 < |ts| && 1 <= k <= 4
    requires ts[p].tokenType == TokenType.Number && OpLevel(ts[p + 1].tokenType) < k
    ensures Binary(ts, p, u, k) == Parsed(Success(Num(ts[p].literal.value.n)), p + 1, false)
  {
    var n := Num(ts[p].literal.value.n);
    NumberUnary(ts, p, u);
    BinaryRestStops(ts, p + 1, u, 4, n, false);
    assert Binary(ts, p, u, 4) == Parsed(Success(n), p + 1, false);
    BinaryLoosens(ts, p, u, k, 4);
  }

  /** `1 - 2 - 3` groups to the left. */
  lemma {:induction false} LeftAssociativeExample(ts: seq<Token>, u: string -> Option<string>)
    requires ts == [NumTok(1.0, "1"), Tok(Minus, "-"), NumTok(2.0, "2"), Tok(Minus, "-"), NumTok(3.0, "3"), Tok(EOF, "")]
    ensures ParseExpr(ts, u) == (Some(Ast.Binary(Ast.Binary(Num(1.0), ts[1], Num(2.0)), ts[3], Num(3.0))), false)
  {
    assert Ready(ts);
    assert ts[..5] == DifferenceTokens();
    DifferenceChain(ts, u);
  }

  function DifferenceTokens(): seq<Token> {
    [NumTok(1.0, "1"), Tok(Minus, "-"), NumTok(2.0, "2"), Tok(Minus, "-"), NumTok(3.0, "3")]
  }

  /** `1 - 2 - 3`, followed by any non-operator, groups to the left. */
  lemma {:induction false} DifferenceChain(ts: seq<Token>, u: string -> Option<string>)
    requires Ready(ts) && 5 < |ts| && ts[..5] == DifferenceTokens() && OpLevel(ts[5].tokenType) == 0
    ensures Expression(ts, 0, u) ==
      Parsed(Success(Ast.Binary(Ast.Binary(Num(1.0), ts[1], Num(2.0)), ts[3], Num(3.0))), 5, false)
  {
    assert ts[0] == NumTok(1.0, "1") && ts[1] == Tok(Minus, "-") && ts[2] == NumTok(2.0, "2");
    assert ts[3] == Tok(Minus, "-") && ts[4] == NumTok(3.0, "3");
    var e12 := Ast.Binary(Num(1.0), ts[1], Num(2.0));
    var e := Ast.Binary(e12, ts[3], Num(3.0));
    NumberAt(ts, 0, u, 4);
    NumberAt(ts, 2, u, 4);
    NumberAt(ts, 4, u, 4);
    assert Operand(ts, 2, u, 3) == Parsed(Success(Num(2.0)), 3, false);
    assert Operand(ts, 4, u, 3) == Parsed(Success(Num(3.0)), 5, false);
    BinaryRestSteps(ts, 1, u, 3, Num(1.0), false);
    BinaryRestSteps(ts, 3, u, 3, e12, false);
    BinaryRestStops(ts, 5, u, 3, e, false);
    assert Binary(ts, 0, u, 3) == Parsed(Success(e), 5, false);
    BinaryLoosens(ts, 0, u, 1, 3);
  }


  function SumOfProductTokens(): seq<Token> {
    [NumTok(1.0, "1"), Tok(Plus, "+"), NumTok(2.0, "2"), Tok(Star, "*"), NumTok(3.0, "3")]
  }

  /** `1 + 2 * 3`, followed by any non-operator, is the sum of 1 and the product. */
  lemma {:induction false} SumOfProduct(ts: seq<Token>, u: string -> Option<string>)
    requires Ready(ts) && 5 < |ts| && ts[..5] == SumOfProductTokens() && OpLevel(ts[5].tokenType) == 0
    ensures Expression(ts, 0, u) ==
      Parsed(Success(Ast.Binary(Num(1.0), ts[1], Ast.Binary(Num(2.0), ts[3], Num(3.0)))), 5, false)
  {
    assert ts[0] == NumTok(1.0, "1") && ts[1] == Tok(Plus, "+");
    var e := Ast.Binary(Num(1.0), ts[1], Ast.Binary(Num(2.0), ts[3], Num(3.0)));
    NumberAt(ts, 0, u, 4);
    ProductPart(ts, u);
    BinaryRestSteps(ts, 1, u, 3, Num(1.0), false);
    BinaryRestStops(ts, 5, u, 3, e, false);
    assert Binary(ts, 0, u, 3) == Parsed(Success(e), 5, false);
    BinaryLoosens(ts, 0, u, 1, 3);
  }

  /** The `2 * 3` part of `1 + 2 * 3`. */
  lemma {:induction false} ProductPart(ts: seq<Token>, u: string -> Option<string>)
    requires Ready(ts) && 5 < |ts| && ts[..5] == SumOfProductTokens() && OpLevel(ts[5].tokenType) == 0
    ensures Operand(ts, 2, u, 3) == Parsed(Success(Ast.Binary(Num(2.0), ts[3], Num(3.0))), 5, false)
  {
    assert ts[2] == NumTok(2.0, "2") && ts[3] == Tok(Star, "*") && ts[4] == NumTok(3.0, "3");
    var e23 := Ast.Binary(Num(2.0), ts[3], Num(3.0));
    NumberUnary(ts, 2, u);
    NumberUnary(ts, 4, u);
    BinaryRestSteps(ts, 3, u, 4, Num(2.0), false);
    BinaryRestStops(ts, 5, u, 4, e23, false);
    assert Binary(ts, 2, u, 4) == Parsed(Success(e23), 5, false);
  }

  /** `1 + 2 * 3 ;`: the product binds tighter than the sum. */
  lemma {:induction false} PrecedenceExample(ts: seq<Token>, u: string -> Option<string>)
    requires ts == SumOfProductTokens() + [Tok(Semicolon, ";"), Tok(EOF, "")]
    ensures Parse(ts, u) ==
      ParseOutcome(Ast.Block([Ast.Expression(Ast.Binary(Num(1.0), ts[1], Ast.Binary(Num(2.0), ts[3], Num(3.0))))]), false)
  {
    assert Ready(ts);
    assert ts[..5] == SumOfProductTokens();
    SumOfProduct(ts, u);
    var e := Ast.Binary(Num(1.0), ts[1], Ast.Binary(Num(2.0), ts[3], Num(3.0)));
    ExpressionStatementParsed(ts, 0, u, e, 5, false);
    assert Statements(ts, 6, u) == ([], false);
    DeclarationKept(ts, 0, u);
  }

  /** Without the final `;` the same tokens parse to an empty block, with the
      error recorded: the statement is dropped by recovery. */
  lemma {:induction false} MissingSemicolonExample(ts: seq<Token>, u: string -> Option<string>)
    requires ts == SumOfProductTokens() + [Tok(EOF, "")]
    ensures Parse(ts, u) == ParseOutcome(Ast.Block([]), true)
  {
    assert Ready(ts);
    assert ts[..5] == SumOfProductTokens();
    SumOfProduct(ts, u);
    var e := Ast.Binary(Num(1.0), ts[1], Ast.Binary(Num(2.0), ts[3], Num(3.0)));
    ExpressionStatementUnterminated(ts, 0, u, e, 5, false);
    assert Synchronize(ts, 5) == 5;
    assert Statements(ts, 5, u) == ([], false);
    DeclarationDropped(ts, 0, u);
  }

  /** `( 1 2 ;` parses without error: the token after the grouped
      expression is skipped whatever it is. */
  lemma {:induction false} GroupingSkipsAnyTokenExample(ts: seq<Token>, u: string -> Option<string>)
    requires ts == [Tok(LeftParen, "("), NumTok(1.0, "1"), NumTok(2.0, "2"), Tok(Semicolon, ";"), Tok(EOF, "")]
    ensures Parse(ts, u) == ParseOutcome(Ast.Block([Ast.Expression(Ast.Grouping(Num(1.0)))]), false)
  {
    assert Ready(ts);
    var g := Ast.Grouping(Num(1.0));
    GroupedNumber(ts, u);
    ExpressionStatementParsed(ts, 0, u, g, 3, false);
    assert Statements(ts, 4, u) == ([], false);
    DeclarationKept(ts, 0, u);
  }

  /** The grouping of `( 1 2 ;` ends after the `2`. */
  lemma {:induction false} GroupedNumber(ts: seq<Token>, u: string -> Option<string>)
    requires ts == [Tok(LeftParen, "("), NumTok(1.0, "1"), NumTok(2.0, "2"), Tok(Semicolon, ";"), Tok(EOF, "")]
    ensures Expression(ts, 0, u) == Parsed(Success(Ast.Grouping(Num(1.0))), 3, false)
  {
    assert Ready(ts);
    var g := Ast.Grouping(Num(1.0));
    NumberAt(ts, 1, u, 1);
    assert Primary(ts, 0, u) == Parsed(Success(g), 3, false);
    assert Unary(ts, 0, u) == Primary(ts, 0, u);
    BinaryRestStops(ts, 3, u, 4, g, false);
    assert Binary(ts, 0, u, 4) == Parsed(Success(g), 3, false);
    BinaryLoosens(ts, 0, u, 1, 4);
  }

  /** `- - 1` nests to the right. */
  lemma {:induction false} NestedUnaryExample(ts: seq<Token>, u: string -> Option<string>)
    requires ts == [Tok(Minus, "-"), Tok(Minus, "-"), NumTok(1.0, "1"), Tok(EOF, "")]
    ensures ParseExpr(ts, u) == (Some(Ast.Unary(ts[0], Ast.Unary(ts[1], Num(1.0)))), false)
  {
    assert Ready(ts);
    var e := Ast.Unary(ts[0], Ast.Unary(ts[1], Num(1.0)));
    NumberUnary(ts, 2, u);
    assert Unary(ts, 1, u) == Parsed(Success(Ast.Unary(ts[1], Num(1.0))), 3, false);
    assert Unary(ts, 0, u) == Parsed(Success(e), 3, false);
    BinaryRestStops(ts, 3, u, 4, e, false);
    assert Binary(ts, 0, u, 4) == Parsed(Success(e), 3, false);
    BinaryLoosens(ts, 0, u, 1, 4);
  }
}

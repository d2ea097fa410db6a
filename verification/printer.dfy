/** The debugging printer (src/ast/pretty_printer.rs): prefix notation in
    which every operator application and grouping is parenthesized and a
    block lists its statements between brackets, separated by `;`.

    The printer's visitors cover binary, grouping, literal, unary and
    variable expressions and block, expression, print and var statements;
    the other variants of the model's tree are outside its domain
    (`Printable`, `PrintableStmt`). Rust's `f64` formatting is the
    parameter `num`. */
module Printer {
  import opened Common
  import Ast
  import Tokens

  predicate Printable(e: Ast.Expr) {
    match e
    case Binary(l, _, r) => Printable(l) && Printable(r)
    case Grouping(x) => Printable(x)
    case Literal(_) => true
    case Unary(_, x) => Printable(x)
    case Variable(_) => true
    case _ => false
  }

  predicate PrintableStmt(s: Ast.Stmt) {
    match s
    case Block(ss) => forall i :: 0 <= i < |ss| ==> PrintableStmt(ss[i])
    case Expression(e) => Printable(e)
    case Print(e) => Printable(e)
    case Var(_, init) => init.Some? ==> Printable(init.value)
    case _ => false
  }

  /* Reference definitions of the two layouts. */

  /** Each part preceded by one space. */
  function Spaced(parts: seq<string>): string {
    if |parts| == 0 then "" else " " + parts[0] + Spaced(parts[1..])
  }

  /** The parts with `sep` between neighbours. */
  function Join(parts: seq<string>, sep: string): string {
    if |parts| == 0 then ""
    else if |parts| == 1 then parts[0]
    else parts[0] + sep + Join(parts[1..], sep)
  }

  /** The layout of `parenthesize`. */
  function Parens(name: string, parts: seq<string>): string {
    "(" + name + Spaced(parts) + ")"
  }

  /** The layout of `block`. */
  function BlockText(parts: seq<string>): string {
    "[" + Join(parts, ";") + "]"
  }

  /** Each part followed by `;`: what the loop of `block` has appended
      before it removes the last separator. */
  function Terminated(parts: seq<string>): string {
    if |parts| == 0 then "" else parts[0] + ";" + Terminated(parts[1..])
  }

  lemma {:induction false} SpacedSnoc(parts: seq<string>, x: string)
    ensures Spaced(parts + [x]) == Spaced(parts) + " " + x
    decreases |parts|
  {
    if |parts| > 0 {
      assert (parts + [x])[1..] == parts[1..] + [x];
      SpacedSnoc(parts[1..], x);
    }
  }

  lemma {:induction false} TerminatedSnoc(parts: seq<string>, x: string)
    ensures Terminated(parts + [x]) == Terminated(parts) + x + ";"
    decreases |parts|
  {
    if |parts| > 0 {
      assert (parts + [x])[1..] == parts[1..] + [x];
      TerminatedSnoc(parts[1..], x);
    }
  }

  /** Dropping the last separator of the terminated list leaves the joined one. */
  lemma {:induction false} TerminatedIsJoin(parts: seq<string>)
    requires |parts| > 0
    ensures Terminated(parts) == Join(parts, ";") + ";"
    decreases |parts|
  {
    if |parts| > 1 {
      TerminatedIsJoin(parts[1..]);
    }
  }

  /** `parenthesize`: the name, then each part after one space, inside one
      pair of parentheses. */
  method Parenthesize(name: string, parts: seq<string>) returns (result: string)
    ensures result == Parens(name, parts)
    ensures result[0] == '(' && result[|result| - 1] == ')'
  {
    result := "(" + name;
    assert result == "(" + name + Spaced(parts[..0]);
    for i := 0 to |parts|
      invariant result == "(" + name + Spaced(parts[..i])
    {
      SpacedSnoc(parts[..i], parts[i]);
      assert parts[..i + 1] == parts[..i] + [parts[i]];
      result := result + " " + parts[i];
    }
    assert parts[..|parts|] == parts;
    result := result + ")";
  }

  /** `block`: every part followed by `;`, the last `;` removed when there
      is one, between brackets. The result is the parts joined by `;`. */
  method Block(parts: seq<string>) returns (result: string)
    ensures result == BlockText(parts)
    ensures |parts| == 0 ==> result == "[]"
  {
    result := "[";
    assert result == "[" + Terminated(parts[..0]);
    for i := 0 to |parts|
      invariant result == "[" + Terminated(parts[..i])
    {
      TerminatedSnoc(parts[..i], parts[i]);
      assert parts[..i + 1] == parts[..i] + [parts[i]];
      result := result + parts[i] + ";";
    }
    assert parts[..|parts|] == parts;
    if |parts| > 0 {
      TerminatedIsJoin(parts);
      assert result == "[" + Join(parts, ";") + ";";
    }
    if |result| > 1 {
      result := result[..|result| - 1];
    }
    result := result + "]";
  }

  /* Rendering trees. */

  /** `visit_literal_expr`: numbers by `num`, strings without quotes. */
  function RenderLiteral(v: Ast.LiteralValue, num: real -> string): string {
    match v
    case Number(n) => num(n)
    case String(s) => s
    case Boolean(b) => if b then "true" else "false"
    case Nil => "nil"
  }

  /** The expression visitors. */
  function Render(e: Ast.Expr, num: real -> string): (s: string)
    requires Printable(e)
    ensures e.Binary? || e.Grouping? || e.Unary? ==> |s| >= 2 && s[0] == '(' && s[|s| - 1] == ')'
  {
    match e
    case Binary(l, op, r) => Parens(op.lexeme, [Render(l, num), Render(r, num)])
    case Grouping(x) => Parens("group", [Render(x, num)])
    case Literal(v) => RenderLiteral(v, num)
    case Unary(op, x) => Parens(op.lexeme, [Render(x, num)])
    case Variable(name) => name.lexeme
  }

  /** `visit_var_stmt`: the name, and ` = ` and the initializer when there is one. */
  function RenderVar(name: string, init: Option<string>): string {
    "(var " + name + (if init.Some? then " = " + init.value else "") + ")"
  }

  /** The statement visitors. */
  function RenderStmt(s: Ast.Stmt, num: real -> string): (t: string)
    requires PrintableStmt(s)
    ensures s.Block? ==> |t| >= 2 && t[0] == '[' && t[|t| - 1] == ']'
    ensures s.Print? || s.Var? ==> |t| >= 2 && t[0] == '(' && t[|t| - 1] == ')'
    decreases s
  {
    match s
    case Block(ss) => BlockText(seq(|ss|, i requires 0 <= i < |ss| => RenderStmt(ss[i], num)))
    case Expression(e) => Render(e, num)
    case Print(e) => Parens("print", [Render(e, num)])
    case Var(name, init) => RenderVar(name.lexeme, if init.Some? then Some(Render(init.value, num)) else None)
  }

  /* Parentheses balance. */

  /** Reads `s` from depth `d`, counting open parentheses; None when a `)`
      closes more than is open. */
  function Walk(s: string, d: nat): Option<nat>
    decreases |s|
  {
    if |s| == 0 then Some(d)
    else if s[0] == '(' then Walk(s[1..], d + 1)
    else if s[0] == ')' then (if d == 0 then None else Walk(s[1..], d - 1))
    else Walk(s[1..], d)
  }

  /** Every `)` closes an earlier `(` and every `(` is closed. */
  predicate Balanced(s: string) {
    Walk(s, 0) == Some(0)
  }

  /** Text without parentheses. */
  predicate Plain(s: string) {
    forall i :: 0 <= i < |s| ==> s[i] != '(' && s[i] != ')'
  }

  /** Operator lexemes, names and leaf texts without parentheses. */
  predicate PlainLeaves(e: Ast.Expr, num: real -> string) {
    match e
    case Binary(l, op, r) => Plain(op.lexeme) && PlainLeaves(l, num) && PlainLeaves(r, num)
    case Grouping(x) => PlainLeaves(x, num)
    case Literal(v) => Plain(RenderLiteral(v, num))
    case Unary(op, x) => Plain(op.lexeme) && PlainLeaves(x, num)
    case Variable(name) => Plain(name.lexeme)
    case _ => true
  }

  predicate PlainLeavesStmt(s: Ast.Stmt, num: real -> string) {
    match s
    case Block(ss) => forall i :: 0 <= i < |ss| ==> PlainLeavesStmt(ss[i], num)
    case Expression(e) => PlainLeaves(e, num)
    case Print(e) => PlainLeaves(e, num)
    case Var(name, init) => Plain(name.lexeme) && (init.Some? ==> PlainLeaves(init.value, num))
    case _ => true
  }

  /** Reading two texts in a row is reading the second from where the
      first stopped. */
  lemma {:induction false} WalkConcat(a: string, b: string, d: nat)
    ensures Walk(a + b, d) == if Walk(a, d).Some? then Walk(b, Walk(a, d).value) else None
    decreases |a|
  {
    if |a| == 0 {
      assert a + b == b;
    } else {
      assert (a + b)[0] == a[0] && (a + b)[1..] == a[1..] + b;
      if a[0] == '(' {
        WalkConcat(a[1..], b, d + 1);
      } else if a[0] == ')' {
        if d > 0 {
          WalkConcat(a[1..], b, d - 1);
        }
      } else {
        WalkConcat(a[1..], b, d);
      }
    }
  }

  /** Starting deeper only shifts the final depth. */
  lemma {:induction false} WalkShift(s: string, d: nat, m: nat, extra: nat)
    requires Walk(s, d) == Some(m)
    ensures Walk(s, d + extra) == Some(m + extra)
    decreases |s|
  {
    if |s| > 0 {
      if s[0] == '(' {
        WalkShift(s[1..], d + 1, m, extra);
      } else if s[0] == ')' {
        WalkShift(s[1..], d - 1, m, extra);
      } else {
        WalkShift(s[1..], d, m, extra);
      }
    }
  }

  lemma {:induction false} WalkPlain(s: string, d: nat)
    requires Plain(s)
    ensures Walk(s, d) == Some(d)
    decreases |s|
  {
    if |s| > 0 {
      assert Plain(s[1..]) by {
        forall i | 0 <= i < |s[1..]| ensures s[1..][i] != '(' && s[1..][i] != ')' {
          assert s[1..][i] == s[i + 1];
        }
      }
      WalkPlain(s[1..], d);
    }
  }

  /** A balanced text leaves any depth as it found it. */
  lemma {:induction false} WalkBalanced(s: string, d: nat)
    requires Balanced(s)
    ensures Walk(s, d) == Some(d)
  {
    WalkShift(s, 0, 0, d);
  }

  lemma {:induction false} SpacedBalanced(parts: seq<string>, d: nat)
    requires forall i :: 0 <= i < |parts| ==> Balanced(parts[i])
    ensures Walk(Spaced(parts), d) == Some(d)
    decreases |parts|
  {
    if |parts| > 0 {
      WalkConcat(" " + parts[0], Spaced(parts[1..]), d);
      WalkConcat(" ", parts[0], d);
      assert Walk(" ", d) == Some(d);
      WalkBalanced(parts[0], d);
      SpacedBalanced(parts[1..], d);
    }
  }

  lemma {:induction false} JoinBalanced(parts: seq<string>, d: nat)
    requires forall i :: 0 <= i < |parts| ==> Balanced(parts[i])
    ensures Walk(Join(parts, ";"), d) == Some(d)
    decreases |parts|
  {
    if |parts| == 1 {
      WalkBalanced(parts[0], d);
    } else if |parts| > 1 {
      WalkConcat(parts[0] + ";", Join(parts[1..], ";"), d);
      WalkConcat(parts[0], ";", d);
      WalkBalanced(parts[0], d);
      assert Walk(";", d) == Some(d);
      JoinBalanced(parts[1..], d);
    }
  }

  /** `parenthesize` with a plain name around balanced parts is balanced. */
  lemma {:induction false} ParensBalanced(name: string, parts: seq<string>)
    requires Plain(name)
    requires forall i :: 0 <= i < |parts| ==> Balanced(parts[i])
    ensures Balanced(Parens(name, parts))
  {
    WalkConcat("(" + name + Spaced(parts), ")", 0);
    WalkConcat("(" + name, Spaced(parts), 0);
    WalkConcat("(", name, 0);
    assert Walk("(", 0) == Some(1);
    WalkPlain(name, 1);
    SpacedBalanced(parts, 1);
    assert Walk(")", 1) == Some(0);
  }

  /** A block of balanced parts is balanced. */
  lemma {:induction false} BlockBalanced(parts: seq<string>)
    requires forall i :: 0 <= i < |parts| ==> Balanced(parts[i])
    ensures Balanced(BlockText(parts))
  {
    WalkConcat("[" + Join(parts, ";"), "]", 0);
    WalkConcat("[", Join(parts, ";"), 0);
    assert Walk("[", 0) == Some(0);
    JoinBalanced(parts, 0);
    assert Walk("]", 0) == Some(0);
  }

  /** The printer parenthesizes every operator application and grouping:
      when no leaf text contains a parenthesis, the output's parentheses
      pair up. */
  lemma {:induction false} RenderBalanced(e: Ast.Expr, num: real -> string)
    requires Printable(e) && PlainLeaves(e, num)
    ensures Balanced(Render(e, num))
  {
    match e
    case Binary(l, op, r) =>
      RenderBalanced(l, num);
      RenderBalanced(r, num);
      ParensBalanced(op.lexeme, [Render(l, num), Render(r, num)]);
    case Grouping(x) =>
      RenderBalanced(x, num);
      assert Plain("group");
      ParensBalanced("group", [Render(x, num)]);
    case Literal(v) =>
      WalkPlain(RenderLiteral(v, num), 0);
    case Unary(op, x) =>
      RenderBalanced(x, num);
      ParensBalanced(op.lexeme, [Render(x, num)]);
    case Variable(name) =>
      WalkPlain(name.lexeme, 0);
  }

  lemma {:induction false} VarBalanced(name: string, init: Option<string>)
    requires Plain(name)
    requires init.Some? ==> Balanced(init.value)
    ensures Balanced(RenderVar(name, init))
  {
    var tail := if init.Some? then " = " + init.value else "";
    WalkConcat("(var " + name + tail, ")", 0);
    WalkConcat("(var " + name, tail, 0);
    WalkConcat("(var ", name, 0);
    assert Walk("(var ", 0) == Some(1) by {
      assert "(var "[1..] == "var ";
      assert Plain("var ");
      WalkPlain("var ", 1);
    }
    WalkPlain(name, 1);
    if init.Some? {
      WalkConcat(" = ", init.value, 1);
      assert Plain(" = ");
      WalkPlain(" = ", 1);
      WalkBalanced(init.value, 1);
    }
    assert Walk(")", 1) == Some(0);
  }

  /** The same holds for statements, blocks included. */
  lemma {:induction false} RenderStmtBalanced(s: Ast.Stmt, num: real -> string)
    requires PrintableStmt(s) && PlainLeavesStmt(s, num)
    ensures Balanced(RenderStmt(s, num))
    decreases s
  {
    match s
    case Block(ss) =>
      var parts := seq(|ss|, i requires 0 <= i < |ss| => RenderStmt(ss[i], num));
      forall i | 0 <= i < |ss| ensures Balanced(parts[i]) {
        RenderStmtBalanced(ss[i], num);
      }
      BlockBalanced(parts);
    case Expression(e) =>
      RenderBalanced(e, num);
    case Print(e) =>
      RenderBalanced(e, num);
      assert Plain("print");
      ParensBalanced("print", [Render(e, num)]);
    case Var(name, init) =>
      if init.Some? {
        RenderBalanced(init.value, num);
      }
      VarBalanced(name.lexeme, if init.Some? then Some(Render(init.value, num)) else None);
  }

  /* Worked renderings. */

  /** `1 + 2 * 3` prints as `(+ 1 (* 2 3))`. */
  lemma {:induction false} PrecedenceRendering(e: Ast.Expr, num: real -> string, plus: Tokens.Token, star: Tokens.Token)
    requires plus.lexeme == "+" && star.lexeme == "*"
    requires num(1.0) == "1" && num(2.0) == "2" && num(3.0) == "3"
    requires e == Ast.Binary(Ast.Literal(Ast.Number(1.0)), plus,
                             Ast.Binary(Ast.Literal(Ast.Number(2.0)), star, Ast.Literal(Ast.Number(3.0))))
    ensures Printable(e) && Render(e, num) == "(+ 1 (* 2 3))"
  {
    assert Printable(e.right.left) && Printable(e.right.right);
    assert Printable(e.right) && Printable(e.left);
    assert Render(e.right, num) == "(* 2 3)" by {
      assert Spaced(["2", "3"]) == " 2 3";
    }
    assert Spaced(["1", "(* 2 3)"]) == " 1 (* 2 3)";
  }

  /** `-1 + 2` prints as `(+ (- 1) 2)`. */
  lemma {:induction false} UnaryRendering(e: Ast.Expr, num: real -> string, plus: Tokens.Token, minus: Tokens.Token)
    requires plus.lexeme == "+" && minus.lexeme == "-"
    requires num(1.0) == "1" && num(2.0) == "2"
    requires e == Ast.Binary(Ast.Unary(minus, Ast.Literal(Ast.Number(1.0))), plus, Ast.Literal(Ast.Number(2.0)))
    ensures Printable(e) && Render(e, num) == "(+ (- 1) 2)"
  {
    assert Printable(e.left.right);
    assert Printable(e.left) && Printable(e.right);
    assert Render(e.left, num) == "(- 1)" by {
      assert Spaced(["1"]) == " 1";
    }
    assert Spaced(["(- 1)", "2"]) == " (- 1) 2";
  }

  /** Strings print without their quotes: `"hello" + "world"` prints as
      `(+ hello world)`. */
  lemma {:induction false} StringsPrintRaw(e: Ast.Expr, num: real -> string, plus: Tokens.Token)
    requires plus.lexeme == "+"
    requires e == Ast.Binary(Ast.Literal(Ast.String("hello")), plus, Ast.Literal(Ast.String("world")))
    ensures Printable(e)
    ensures Render(e, num) == "(+ hello world)"
  {
    assert Printable(e.left) && Printable(e.right);
    assert Render(e.left, num) == "hello" && Render(e.right, num) == "world";
    assert Spaced(["hello", "world"]) == " hello world";
  }

  /** Hence the string `"nil"` prints like `nil`. */
  lemma {:induction false} StringLooksLikeNil(num: real -> string)
    ensures Render(Ast.Literal(Ast.String("nil")), num) == Render(Ast.Literal(Ast.Nil), num)
  {
  }

  /** `var x;` prints as `(var x)` and `var x = e;` as `(var x = e)`. */
  lemma {:induction false} VarRendering(name: Tokens.Token, e: Ast.Expr, num: real -> string)
    requires Printable(e)
    ensures RenderStmt(Ast.Var(name, None), num) == "(var " + name.lexeme + ")"
    ensures RenderStmt(Ast.Var(name, Some(e)), num) == "(var " + name.lexeme + " = " + Render(e, num) + ")"
  {
    assert RenderStmt(Ast.Var(name, None), num) == RenderVar(name.lexeme, None);
    assert "(var " + name.lexeme + "" + ")" == "(var " + name.lexeme + ")";
  }

  /** `print e;` prints as `(print e)`. */
  lemma {:induction false} PrintRendering(e: Ast.Expr, num: real -> string)
    requires Printable(e)
    ensures RenderStmt(Ast.Print(e), num) == "(print " + Render(e, num) + ")"
  {
    assert Spaced([Render(e, num)]) == " " + Render(e, num) + "";
  }

  /** A block of two statements prints them between brackets, separated by
      `;`; the empty block prints as `[]`. */
  lemma {:induction false} BlockRendering(s: Ast.Stmt, t: Ast.Stmt, num: real -> string)
    requires PrintableStmt(s) && PrintableStmt(t)
    ensures RenderStmt(Ast.Block([]), num) == "[]"
    ensures RenderStmt(Ast.Block([s, t]), num) == "[" + RenderStmt(s, num) + ";" + RenderStmt(t, num) + "]"
  {
    var ss := [s, t];
    var parts := seq(2, i requires 0 <= i < 2 => RenderStmt(ss[i], num));
    assert parts == [RenderStmt(s, num), RenderStmt(t, num)];
    assert Join(parts, ";") == RenderStmt(s, num) + ";" + RenderStmt(t, num);
  }
}

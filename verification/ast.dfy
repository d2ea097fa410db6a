/** The abstract syntax tree.

    src/ast/expr.rs and src/ast/stmt.rs declare only part of the variants that
    the resolver visits (src/resolver.rs); the model's AST is the union of the
    variants the code touches. Class bodies are sequences of `Method`s, so a
    class member that is not a function declaration cannot be written. */
module Ast {
  import opened Common
  import Tokens

  datatype LiteralValue = Number(n: real) | String(s: string) | Boolean(b: bool) | Nil

  datatype Expr =
    | Binary(left: Expr, operator: Tokens.Token, right: Expr)
    | Grouping(expression: Expr)
    | Literal(literal: LiteralValue)
    | Unary(operator: Tokens.Token, right: Expr)
    | Assign(name: Tokens.Token, value: Expr)
    | Variable(name: Tokens.Token)
    | Logical(left: Expr, operator: Tokens.Token, right: Expr)
    | Call(callee: Expr, arguments: seq<Expr>)
    | Get(obj: Expr, name: Tokens.Token)
    | Set(obj: Expr, name: Tokens.Token, value: Expr)
    | This(keyword: Tokens.Token)

  datatype Stmt =
    | Var(name: Tokens.Token, initializer: Option<Expr>)
    | Block(statements: seq<Stmt>)
    | Expression(expression: Expr)
    | Print(expression: Expr)
    | Program(statements: seq<Stmt>)
    | If(condition: Expr, thenBranch: Stmt, elseBranch: Option<Stmt>)
    | While(condition: Expr, loopBody: Stmt)
    | FunctionDecl(name: Tokens.Token, params: seq<Tokens.Token>, body: seq<Stmt>)
    | Return(value: Option<Expr>)
    | ClassDecl(name: Tokens.Token, methods: seq<Method>)

  datatype Method = Method(name: Tokens.Token, params: seq<Tokens.Token>, body: seq<Stmt>)

  /* Sizes, used as termination measures by the passes over the tree. */

  function ExprSize(e: Expr): (n: nat)
    ensures n >= 1
  {
    match e
    case Binary(l, _, r) => 1 + ExprSize(l) + ExprSize(r)
    case Grouping(x) => 1 + ExprSize(x)
    case Literal(_) => 1
    case Unary(_, x) => 1 + ExprSize(x)
    case Assign(_, x) => 1 + ExprSize(x)
    case Variable(_) => 1
    case Logical(l, _, r) => 1 + ExprSize(l) + ExprSize(r)
    case Call(c, args) => 1 + ExprSize(c) + ExprsSize(args)
    case Get(o, _) => 1 + ExprSize(o)
    case Set(o, _, v) => 1 + ExprSize(o) + ExprSize(v)
    case This(_) => 1
  }

  function ExprsSize(es: seq<Expr>): nat {
    if |es| == 0 then 0 else ExprSize(es[0]) + ExprsSize(es[1..])
  }

  function StmtSize(s: Stmt): (n: nat)
    ensures n >= 1
  {
    match s
    case Var(_, init) => 1 + (if init.Some? then ExprSize(init.value) else 0)
    case Block(ss) => 1 + StmtsSize(ss)
    case Expression(e) => 1 + ExprSize(e)
    case Print(e) => 1 + ExprSize(e)
    case Program(ss) => 1 + StmtsSize(ss)
    case If(c, t, e) => 1 + ExprSize(c) + StmtSize(t) + (if e.Some? then StmtSize(e.value) else 0)
    case While(c, b) => 1 + ExprSize(c) + StmtSize(b)
    case FunctionDecl(_, _, body) => 1 + StmtsSize(body)
    case Return(v) => 1 + (if v.Some? then ExprSize(v.value) else 0)
    case ClassDecl(_, ms) => 1 + MethodsSize(ms)
  }

  function StmtsSize(ss: seq<Stmt>): nat {
    if |ss| == 0 then 0 else StmtSize(ss[0]) + StmtsSize(ss[1..])
  }

  function MethodsSize(ms: seq<Method>): nat {
    if |ms| == 0 then 0 else 1 + StmtsSize(ms[0].body) + MethodsSize(ms[1..])
  }
}

/** The static scope resolver (src/resolver.rs).

    The resolver's mutable fields become a `State` value threaded through
    pure functions. Its scope stack is a sequence of name -> "defined" maps,
    innermost FIRST (the source's vector is innermost last), so a scope's
    distance from the innermost one is its index. Each `interpreter.resolve`
    call is recorded, in order, in the state's side table `resolutions`.
    A pass either completes (`Done`) or stops at the first error (`Abort`),
    keeping the state reached at that point. */
module Resolver {
  import opened Common
  import Tokens
  import Ast

  datatype FunctionType = NoFunction | Function | Method

  datatype ClassType = NoClass | Class

  /** One `interpreter.resolve(name, depth)` call. */
  datatype Resolution = Resolution(name: Tokens.Token, depth: nat)

  type Scope = map<string, bool>

  datatype State = State(scopes: seq<Scope>, fn: FunctionType, cls: ClassType, resolutions: seq<Resolution>)

  datatype Outcome = Done(st: State) | Abort(error: Error, st: State)

  /** `Resolver::new`. */
  function NewResolver(): (st: State)
    ensures |st.scopes| == 0 && st.fn == NoFunction && st.cls == NoClass && |st.resolutions| == 0
  {
    State([], NoFunction, NoClass, [])
  }

  /* The resolver's errors (all raised as runtime errors in the source). */

  function AlreadyDeclared(name: string): Error {
    Error(Runtime, "Variable with this name already declared in this scope: " + name)
  }

  function UndefinedVariable(name: string): Error {
    Error(Runtime, "Undefined variable: " + name)
  }

  const OwnInitializer := Error(Runtime, "Can't read local variable in its own initializer.")

  const ThisOutsideClass := Error(Runtime, "Can't use 'this' outside of a class.")

  const ReturnOutsideFunction := Error(Runtime, "Can't return from non-function.")

  /* Scopes. */

  /** `d` is the nearest scope holding `name`. */
  predicate NearestScope(scopes: seq<Scope>, name: string, d: nat) {
    d < |scopes| && name in scopes[d] && forall j :: 0 <= j < d ==> name !in scopes[j]
  }

  predicate InSomeScope(scopes: seq<Scope>, name: string) {
    exists d :: 0 <= d < |scopes| && name in scopes[d]
  }

  /** `begin_scope`: pushes an empty innermost scope. */
  function BeginScope(st: State): (r: State)
    ensures |r.scopes| == |st.scopes| + 1 && r.scopes[0] == map[] && r.scopes[1..] == st.scopes
    ensures r.fn == st.fn && r.cls == st.cls && r.resolutions == st.resolutions
  {
    st.(scopes := [map[]] + st.scopes)
  }

  /** `end_scope`: pops the innermost scope; popping an empty stack does nothing. */
  function EndScope(st: State): (r: State)
    ensures |st.scopes| > 0 ==> r.scopes == st.scopes[1..]
    ensures |st.scopes| == 0 ==> r == st
    ensures r.fn == st.fn && r.cls == st.cls && r.resolutions == st.resolutions
  {
    if |st.scopes| == 0 then st else st.(scopes := st.scopes[1..])
  }

  /** Closing a scope undoes opening it. */
  lemma {:induction false} EndScopeUndoesBeginScope(st: State)
    ensures EndScope(BeginScope(st)) == st
  {
    assert BeginScope(st).scopes[1..] == st.scopes;
  }

  /** `declare`: adds the name to the innermost scope as not yet defined;
      fails when that scope already has it; does nothing without a scope. */
  function Declare(st: State, name: Tokens.Token): (r: Outcome)
    ensures r.Abort? <==> |st.scopes| > 0 && name.lexeme in st.scopes[0]
    ensures r.Abort? ==> r == Abort(AlreadyDeclared(name.lexeme), st)
    ensures r.Done? && |st.scopes| > 0 ==> r.st.scopes == st.scopes[0 := st.scopes[0][name.lexeme := false]]
    ensures |st.scopes| == 0 ==> r == Done(st)
    ensures r.st.fn == st.fn && r.st.cls == st.cls && r.st.resolutions == st.resolutions
  {
    if |st.scopes| == 0 then Done(st)
    else if name.lexeme in st.scopes[0] then Abort(AlreadyDeclared(name.lexeme), st)
    else Done(st.(scopes := st.scopes[0 := st.scopes[0][name.lexeme := false]]))
  }

  /** `define`: marks a name of the innermost scope as defined; adds no
      name and touches no other scope. */
  function Define(st: State, name: Tokens.Token): (r: State)
    ensures |r.scopes| == |st.scopes|
    ensures |st.scopes| > 0 ==> r.scopes[1..] == st.scopes[1..] && r.scopes[0].Keys == st.scopes[0].Keys
    ensures |st.scopes| > 0 && name.lexeme in st.scopes[0] ==>
      r.scopes[0][name.lexeme] && forall k :: k in st.scopes[0] && k != name.lexeme ==> r.scopes[0][k] == st.scopes[0][k]
    ensures |st.scopes| == 0 || name.lexeme !in st.scopes[0] ==> r == st
    ensures r.fn == st.fn && r.cls == st.cls && r.resolutions == st.resolutions
  {
    if |st.scopes| > 0 && name.lexeme in st.scopes[0] then
      st.(scopes := st.scopes[0 := st.scopes[0][name.lexeme := true]])
    else st
  }

  /** The loop of `resolve_local`: the first scope, from `i` outward, that
      holds `name`. */
  function FindScope(scopes: seq<Scope>, name: string, i: nat): (r: Option<nat>)
    requires i <= |scopes|
    requires forall j :: 0 <= j < i ==> name !in scopes[j]
    ensures r.Some? ==> NearestScope(scopes, name, r.value)
    ensures r.None? <==> !InSomeScope(scopes, name)
    decreases |scopes| - i
  {
    if i == |scopes| then None
    else if name in scopes[i] then Some(i)
    else FindScope(scopes, name, i + 1)
  }

  /** Every resolution recorded from position `from` on names the nearest
      scope of `scopes` that holds its name. */
  predicate Accurate(scopes: seq<Scope>, rs: seq<Resolution>, from: nat) {
    forall k :: from <= k < |rs| ==> NearestScope(scopes, rs[k].name.lexeme, rs[k].depth)
  }

  /** What resolving an expression does to the state: nothing but append
      accurate resolutions. */
  predicate ExprStep(a: State, b: State) {
    && b.scopes == a.scopes && b.fn == a.fn && b.cls == a.cls
    && IsPrefix(a.resolutions, b.resolutions)
    && Accurate(a.scopes, b.resolutions, |a.resolutions|)
  }

  lemma {:induction false} PrefixTrans<T>(a: seq<T>, b: seq<T>, c: seq<T>)
    requires IsPrefix(a, b) && IsPrefix(b, c)
    ensures IsPrefix(a, c)
  {
    assert c[..|a|] == c[..|b|][..|a|];
  }

  lemma {:induction false} ExprStepTrans(a: State, b: State, c: State)
    requires ExprStep(a, b) && ExprStep(b, c)
    ensures ExprStep(a, c)
  {
    PrefixTrans(a.resolutions, b.resolutions, c.resolutions);
    forall k | |a.resolutions| <= k < |c.resolutions|
      ensures NearestScope(a.scopes, c.resolutions[k].name.lexeme, c.resolutions[k].depth)
    {
      if k < |b.resolutions| {
        assert c.resolutions[k] == b.resolutions[k];
      }
    }
  }

  /* The references a pass records. */

  /** A variable reference that `resolve_local` is called for: a read, the
      target of an assignment, or `this`. */
  datatype Ref = Read(name: Tokens.Token) | Write(name: Tokens.Token) | SelfRef(name: Tokens.Token)

  /** The references of an expression, in the order the visitors reach
      them: operands left to right, an assignment's value before its
      target, a callee before its arguments. */
  function Refs(e: Ast.Expr): seq<Ref>
    decreases Ast.ExprSize(e), 0
  {
    match e
    case Binary(l, _, rt) => Refs(l) + Refs(rt)
    case Logical(l, _, rt) => Refs(l) + Refs(rt)
    case Grouping(x) => Refs(x)
    case Literal(_) => []
    case Unary(_, x) => Refs(x)
    case Variable(name) => [Read(name)]
    case Assign(name, value) => Refs(value) + [Write(name)]
    case Call(callee, args) => Refs(callee) + ExprsRefs(args)
    case Get(obj, _) => Refs(obj)
    case Set(obj, _, value) => Refs(obj) + Refs(value)
    case This(keyword) => [SelfRef(keyword)]
  }

  function ExprsRefs(es: seq<Ast.Expr>): seq<Ref>
    decreases Ast.ExprsSize(es), 1
  {
    if |es| == 0 then [] else Refs(es[0]) + ExprsRefs(es[1..])
  }

  /** The references of a statement: initializers, conditions, branches,
      loop bodies, returned values and function and method bodies. */
  function StmtRefs(s: Ast.Stmt): seq<Ref>
    decreases Ast.StmtSize(s), 0
  {
    match s
    case Var(_, init) => if init.Some? then Refs(init.value) else []
    case Block(ss) => StmtsRefs(ss)
    case Expression(e) => Refs(e)
    case Print(e) => Refs(e)
    case Program(ss) => StmtsRefs(ss)
    case If(c, t, e) => Refs(c) + StmtRefs(t) + (if e.Some? then StmtRefs(e.value) else [])
    case While(c, b) => Refs(c) + StmtRefs(b)
    case FunctionDecl(_, _, body) => StmtsRefs(body)
    case Return(v) => if v.Some? then Refs(v.value) else []
    case ClassDecl(_, ms) => MethodsRefs(ms)
  }

  function StmtsRefs(ss: seq<Ast.Stmt>): seq<Ref>
    decreases Ast.StmtsSize(ss), 1
  {
    if |ss| == 0 then [] else StmtRefs(ss[0]) + StmtsRefs(ss[1..])
  }

  function MethodsRefs(ms: seq<Ast.Method>): seq<Ref>
    decreases Ast.MethodsSize(ms), 0
  {
    if |ms| == 0 then [] else StmtsRefs(ms[0].body) + MethodsRefs(ms[1..])
  }

  /** `after` extends `before` by one resolution per reference of `refs`,
      in order, each for that reference's token. */
  predicate Records(before: seq<Resolution>, after: seq<Resolution>, refs: seq<Ref>) {
    && IsPrefix(before, after)
    && |after| == |before| + |refs|
    && forall k :: 0 <= k < |refs| ==> after[|before| + k].name == refs[k].name
  }

  lemma {:induction false} RecordsTrans(a: seq<Resolution>, b: seq<Resolution>, c: seq<Resolution>,
                                        x: seq<Ref>, y: seq<Ref>)
    requires Records(a, b, x) && Records(b, c, y)
    ensures Records(a, c, x + y)
  {
    PrefixTrans(a, b, c);
    forall k | 0 <= k < |x + y| ensures c[|a| + k].name == (x + y)[k].name {
      if k < |x| {
        assert c[|a| + k] == c[..|b|][|a| + k] == b[|a| + k];
      } else {
        assert c[|a| + k] == c[|b| + (k - |x|)];
      }
    }
  }

  /** A reference the resolver accepts in the given scopes and class
      context: the name is in some scope, a read is not of a name declared
      but not yet defined in the innermost scope, and `this` is inside a
      class. */
  predicate RefOk(scopes: seq<Scope>, cls: ClassType, ref: Ref) {
    match ref
    case Read(n) => InSomeScope(scopes, n.lexeme) && !(|scopes| > 0 && n.lexeme in scopes[0] && !scopes[0][n.lexeme])
    case Write(n) => InSomeScope(scopes, n.lexeme)
    case SelfRef(k) => cls == Class && InSomeScope(scopes, k.lexeme)
  }

  predicate AllOk(scopes: seq<Scope>, cls: ClassType, refs: seq<Ref>) {
    forall k :: 0 <= k < |refs| ==> RefOk(scopes, cls, refs[k])
  }

  lemma {:induction false} AllOkAppend(scopes: seq<Scope>, cls: ClassType, x: seq<Ref>, y: seq<Ref>)
    ensures AllOk(scopes, cls, x + y) <==> AllOk(scopes, cls, x) && AllOk(scopes, cls, y)
  {
    if AllOk(scopes, cls, x) && AllOk(scopes, cls, y) {
      forall k | 0 <= k < |x + y| ensures RefOk(scopes, cls, (x + y)[k]) {
        if k >= |x| {
          assert (x + y)[k] == y[k - |x|];
        }
      }
    }
    if AllOk(scopes, cls, x + y) {
      forall k | 0 <= k < |y| ensures RefOk(scopes, cls, y[k]) {
        assert (x + y)[|x| + k] == y[k];
      }
      forall k | 0 <= k < |x| ensures RefOk(scopes, cls, x[k]) {
        assert (x + y)[k] == x[k];
      }
    }
  }

  /** `resolve_local`: records the distance of the nearest scope holding
      the name, or fails when no scope holds it. */
  function ResolveLocal(st: State, name: Tokens.Token): (r: Outcome)
    ensures ExprStep(st, r.st)
    ensures r.Done? <==> InSomeScope(st.scopes, name.lexeme)
    ensures r.Done? ==> |r.st.resolutions| == |st.resolutions| + 1 && r.st.resolutions[|st.resolutions|].name == name
    ensures r.Abort? ==> r == Abort(UndefinedVariable(name.lexeme), st)
  {
    match FindScope(st.scopes, name.lexeme, 0)
    case Some(d) => Done(st.(resolutions := st.resolutions + [Resolution(name, d)]))
    case None => Abort(UndefinedVariable(name.lexeme), st)
  }

  /* Expressions. */

  /** The expression visitors: operands left to right, stopping at the
      first error. A completed pass records every reference of the
      expression, in order; it completes exactly when every reference is
      acceptable. */
  function ResolveExpr(st: State, e: Ast.Expr): (r: Outcome)
    ensures ExprStep(st, r.st)
    ensures r.Done? ==> Records(st.resolutions, r.st.resolutions, Refs(e))
    ensures r.Done? <==> AllOk(st.scopes, st.cls, Refs(e))
    decreases Ast.ExprSize(e), 0
  {
    match e
    case Binary(l, _, rt) => ResolvePair(st, l, rt)
    case Logical(l, _, rt) => ResolvePair(st, l, rt)
    case Grouping(x) => ResolveExpr(st, x)
    case Literal(_) => Done(st)
    case Unary(_, x) => ResolveExpr(st, x)
    case Variable(name) => ResolveRead(st, name)
    case Assign(name, value) => ResolveAssign(st, name, value)
    case Call(callee, args) => ResolveCall(st, callee, args)
    case Get(obj, _) => ResolveExpr(st, obj)
    case Set(obj, _, value) => ResolvePair(st, obj, value)
    case This(keyword) => ResolveThis(st, keyword)
  }

  /** `visit_variable_expr`: a read of a name declared but not yet defined
      in the innermost scope is its own initializer. */
  function ResolveRead(st: State, name: Tokens.Token): (r: Outcome)
    ensures ExprStep(st, r.st)
    ensures r.Done? ==> Records(st.resolutions, r.st.resolutions, [Read(name)])
    ensures r.Done? <==> AllOk(st.scopes, st.cls, [Read(name)])
    ensures |st.scopes| > 0 && name.lexeme in st.scopes[0] && !st.scopes[0][name.lexeme] ==> r == Abort(OwnInitializer, st)
  {
    assert [Read(name)][0] == Read(name);
    if |st.scopes| > 0 && name.lexeme in st.scopes[0] && !st.scopes[0][name.lexeme] then Abort(OwnInitializer, st)
    else ResolveLocal(st, name)
  }

  /** `visit_this_expr`: `this` outside a class is an error. */
  function ResolveThis(st: State, keyword: Tokens.Token): (r: Outcome)
    ensures ExprStep(st, r.st)
    ensures r.Done? ==> Records(st.resolutions, r.st.resolutions, [SelfRef(keyword)])
    ensures r.Done? <==> AllOk(st.scopes, st.cls, [SelfRef(keyword)])
    ensures st.cls == NoClass ==> r == Abort(ThisOutsideClass, st)
  {
    assert [SelfRef(keyword)][0] == SelfRef(keyword);
    if st.cls == NoClass then Abort(ThisOutsideClass, st)
    else ResolveLocal(st, keyword)
  }

  /** `visit_assign_expr`: the value, then the target. */
  function ResolveAssign(st: State, name: Tokens.Token, value: Ast.Expr): (r: Outcome)
    ensures ExprStep(st, r.st)
    ensures r.Done? ==> Records(st.resolutions, r.st.resolutions, Refs(value) + [Write(name)])
    ensures r.Done? <==> AllOk(st.scopes, st.cls, Refs(value) + [Write(name)])
    decreases Ast.ExprSize(value), 1
  {
    var x := ResolveExpr(st, value);
    AllOkAppend(st.scopes, st.cls, Refs(value), [Write(name)]);
    assert [Write(name)][0] == Write(name);
    if x.Abort? then x
    else
      var y := ResolveLocal(x.st, name);
      ExprStepTrans(st, x.st, y.st);
      if y.Done? then RecordsTrans(st.resolutions, x.st.resolutions, y.st.resolutions, Refs(value), [Write(name)]); y
      else y
  }

  /** `visit_call_expr`: the callee, then the arguments. */
  function ResolveCall(st: State, callee: Ast.Expr, args: seq<Ast.Expr>): (r: Outcome)
    ensures ExprStep(st, r.st)
    ensures r.Done? ==> Records(st.resolutions, r.st.resolutions, Refs(callee) + ExprsRefs(args))
    ensures r.Done? <==> AllOk(st.scopes, st.cls, Refs(callee) + ExprsRefs(args))
    decreases Ast.ExprSize(callee) + Ast.ExprsSize(args), 1
  {
    var x := ResolveExpr(st, callee);
    AllOkAppend(st.scopes, st.cls, Refs(callee), ExprsRefs(args));
    if x.Abort? then x
    else
      var y := ResolveExprs(x.st, args);
      ExprStepTrans(st, x.st, y.st);
      if y.Done? then RecordsTrans(st.resolutions, x.st.resolutions, y.st.resolutions, Refs(callee), ExprsRefs(args)); y
      else y
  }

  /** Two operands in order. */
  function ResolvePair(st: State, a: Ast.Expr, b: Ast.Expr): (r: Outcome)
    ensures ExprStep(st, r.st)
    ensures r.Done? ==> Records(st.resolutions, r.st.resolutions, Refs(a) + Refs(b))
    ensures r.Done? <==> AllOk(st.scopes, st.cls, Refs(a) + Refs(b))
    decreases Ast.ExprSize(a) + Ast.ExprSize(b), 1
  {
    var x := ResolveExpr(st, a);
    AllOkAppend(st.scopes, st.cls, Refs(a), Refs(b));
    if x.Abort? then x
    else
      var y := ResolveExpr(x.st, b);
      ExprStepTrans(st, x.st, y.st);
      if y.Done? then RecordsTrans(st.resolutions, x.st.resolutions, y.st.resolutions, Refs(a), Refs(b)); y
      else y
  }

  /** `resolve_exprs`: the arguments in order. */
  function ResolveExprs(st: State, es: seq<Ast.Expr>): (r: Outcome)
    ensures ExprStep(st, r.st)
    ensures r.Done? ==> Records(st.resolutions, r.st.resolutions, ExprsRefs(es))
    ensures r.Done? <==> AllOk(st.scopes, st.cls, ExprsRefs(es))
    decreases Ast.ExprsSize(es), 1
  {
    if |es| == 0 then Done(st)
    else
      var x := ResolveExpr(st, es[0]);
      AllOkAppend(st.scopes, st.cls, Refs(es[0]), ExprsRefs(es[1..]));
      if x.Abort? then x
      else
        var y := ResolveExprs(x.st, es[1..]);
        ExprStepTrans(st, x.st, y.st);
        if y.Done? then RecordsTrans(st.resolutions, x.st.resolutions, y.st.resolutions, Refs(es[0]), ExprsRefs(es[1..])); y
        else y
  }

  /* Statements. */

  /** A statement after which the function kind is NoFunction: a `Program`
      statement, which sets the kind and never restores it, outside any
      function or class body. */
  predicate ResetsFunction(s: Ast.Stmt) {
    match s
    case Program(_) => true
    case Block(ss) => exists i :: 0 <= i < |ss| && ResetsFunction(ss[i])
    case If(_, t, e) => ResetsFunction(t) || (e.Some? && ResetsFunction(e.value))
    case While(_, b) => ResetsFunction(b)
    case _ => false
  }

  predicate AnyResets(ss: seq<Ast.Stmt>) {
    exists i :: 0 <= i < |ss| && ResetsFunction(ss[i])
  }

  lemma {:induction false} AnyResetsCons(ss: seq<Ast.Stmt>)
    requires |ss| > 0
    ensures AnyResets(ss) <==> ResetsFunction(ss[0]) || AnyResets(ss[1..])
  {
    if AnyResets(ss) && !ResetsFunction(ss[0]) {
      var i :| 0 <= i < |ss| && ResetsFunction(ss[i]);
      assert ss[1..][i - 1] == ss[i];
    }
    if AnyResets(ss[1..]) {
      var i :| 0 <= i < |ss[1..]| && ResetsFunction(ss[1..][i]);
      assert ss[i + 1] == ss[1..][i];
    }
  }

  /** What a completed statement pass keeps: the depth of the scope stack
      and every scope but the innermost, the class kind and the resolutions
      already recorded; the function kind is kept unless `resets`. */
  predicate StmtDone(a: State, b: State, resets: bool) {
    && |b.scopes| == |a.scopes|
    && (|a.scopes| > 0 ==> b.scopes[1..] == a.scopes[1..])
    && b.cls == a.cls
    && b.fn == (if resets then NoFunction else a.fn)
    && IsPrefix(a.resolutions, b.resolutions)
  }

  lemma {:induction false} StmtDoneTrans(a: State, b: State, c: State, x: bool, y: bool)
    requires StmtDone(a, b, x) && StmtDone(b, c, y)
    ensures StmtDone(a, c, x || y)
  {
    PrefixTrans(a.resolutions, b.resolutions, c.resolutions);
  }

  lemma {:induction false} ExprStepIsStmtDone(a: State, b: State)
    requires ExprStep(a, b)
    ensures StmtDone(a, b, false)
  {
  }

  /** The statement visitors. A completed pass records every reference of
      the statement, in order. */
  function ResolveStmt(st: State, s: Ast.Stmt): (r: Outcome)
    ensures r.Done? ==> StmtDone(st, r.st, ResetsFunction(s))
    ensures IsPrefix(st.resolutions, r.st.resolutions)
    ensures (s.Block? || s.Program?) && r.Done? ==> r.st.scopes == st.scopes
    ensures r.Done? ==> Records(st.resolutions, r.st.resolutions, StmtRefs(s))
    decreases Ast.StmtSize(s), 0
  {
    match s
    case Program(ds) => ResolveProgramStmt(st, ds)
    case Block(ds) =>
      assert ResetsFunction(s) == AnyResets(ds);
      ResolveBlock(st, ds)
    case Expression(e) => ResolveExprStmt(st, e)
    case Print(e) => ResolveExprStmt(st, e)
    case Var(name, init) => ResolveVar(st, name, init)
    case If(c, t, e) => ResolveIf(st, c, t, e)
    case While(c, b) => ResolveWhile(st, c, b)
    case FunctionDecl(name, params, body) => ResolveFunctionDecl(st, name, params, body)
    case Return(value) => ResolveReturn(st, value)
    case ClassDecl(name, methods) => ResolveClass(st, name, methods)
  }

  /** `visit_program_stmt`: the declarations in a new scope, with the
      function kind set to none and not restored. */
  function ResolveProgramStmt(st: State, ds: seq<Ast.Stmt>): (r: Outcome)
    ensures r.Done? ==> StmtDone(st, r.st, true) && r.st.scopes == st.scopes
    ensures IsPrefix(st.resolutions, r.st.resolutions)
    ensures r.Done? ==> Records(st.resolutions, r.st.resolutions, StmtsRefs(ds))
    decreases Ast.StmtsSize(ds), 2
  {
    var b := ResolveStmts(BeginScope(st).(fn := NoFunction), ds);
    if b.Abort? then b else Done(EndScope(b.st))
  }

  /** `visit_block_stmt`: the declarations in a new scope. */
  function ResolveBlock(st: State, ds: seq<Ast.Stmt>): (r: Outcome)
    ensures r.Done? ==> StmtDone(st, r.st, AnyResets(ds)) && r.st.scopes == st.scopes
    ensures IsPrefix(st.resolutions, r.st.resolutions)
    ensures r.Done? ==> Records(st.resolutions, r.st.resolutions, StmtsRefs(ds))
    decreases Ast.StmtsSize(ds), 2
  {
    var b := ResolveStmts(BeginScope(st), ds);
    if b.Abort? then b else Done(EndScope(b.st))
  }

  /** `visit_expression_stmt` and `visit_print_stmt`: the expression. */
  function ResolveExprStmt(st: State, e: Ast.Expr): (r: Outcome)
    ensures r.Done? ==> StmtDone(st, r.st, false)
    ensures IsPrefix(st.resolutions, r.st.resolutions)
    ensures r.Done? ==> Records(st.resolutions, r.st.resolutions, Refs(e))
    ensures r.Done? <==> AllOk(st.scopes, st.cls, Refs(e))
    decreases Ast.ExprSize(e), 1
  {
    var x := ResolveExpr(st, e);
    ExprStepIsStmtDone(st, x.st);
    x
  }

  /** `visit_if_stmt`: the condition, the then branch, then the else branch
      if there is one. */
  function ResolveIf(st: State, c: Ast.Expr, t: Ast.Stmt, e: Option<Ast.Stmt>): (r: Outcome)
    ensures r.Done? ==> StmtDone(st, r.st, ResetsFunction(t) || (e.Some? && ResetsFunction(e.value)))
    ensures IsPrefix(st.resolutions, r.st.resolutions)
    ensures r.Done? ==>
      Records(st.resolutions, r.st.resolutions, Refs(c) + StmtRefs(t) + (if e.Some? then StmtRefs(e.value) else []))
    decreases Ast.ExprSize(c) + Ast.StmtSize(t) + (if e.Some? then Ast.StmtSize(e.value) else 0), 1
  {
    var x := ResolveExpr(st, c);
    ExprStepIsStmtDone(st, x.st);
    if x.Abort? then x
    else
      var y := ResolveStmt(x.st, t);
      PrefixTrans(st.resolutions, x.st.resolutions, y.st.resolutions);
      if y.Abort? then y
      else
        StmtDoneTrans(st, x.st, y.st, false, ResetsFunction(t));
        RecordsTrans(st.resolutions, x.st.resolutions, y.st.resolutions, Refs(c), StmtRefs(t));
        if e.None? then
          assert Refs(c) + StmtRefs(t) + [] == Refs(c) + StmtRefs(t);
          y
        else
          var z := ResolveStmt(y.st, e.value);
          PrefixTrans(st.resolutions, y.st.resolutions, z.st.resolutions);
          if z.Abort? then z
          else
            StmtDoneTrans(st, y.st, z.st, ResetsFunction(t), ResetsFunction(e.value));
            RecordsTrans(st.resolutions, y.st.resolutions, z.st.resolutions, Refs(c) + StmtRefs(t), StmtRefs(e.value));
            z
  }

  /** `visit_while_stmt`: the condition, then the body. */
  function ResolveWhile(st: State, c: Ast.Expr, b: Ast.Stmt): (r: Outcome)
    ensures r.Done? ==> StmtDone(st, r.st, ResetsFunction(b))
    ensures IsPrefix(st.resolutions, r.st.resolutions)
    ensures r.Done? ==> Records(st.resolutions, r.st.resolutions, Refs(c) + StmtRefs(b))
    decreases Ast.ExprSize(c) + Ast.StmtSize(b), 1
  {
    var x := ResolveExpr(st, c);
    ExprStepIsStmtDone(st, x.st);
    if x.Abort? then x
    else
      var y := ResolveStmt(x.st, b);
      PrefixTrans(st.resolutions, x.st.resolutions, y.st.resolutions);
      if y.Abort? then y
      else
        StmtDoneTrans(st, x.st, y.st, false, ResetsFunction(b));
        RecordsTrans(st.resolutions, x.st.resolutions, y.st.resolutions, Refs(c), StmtRefs(b));
        y
  }

  /** `visit_function_decl_stmt`: declare and define the name, then resolve
      the function. */
  function ResolveFunctionDecl(st: State, name: Tokens.Token, params: seq<Tokens.Token>, body: seq<Ast.Stmt>): (r: Outcome)
    ensures r.Done? ==> StmtDone(st, r.st, false)
    ensures IsPrefix(st.resolutions, r.st.resolutions)
    ensures r.Done? ==> Records(st.resolutions, r.st.resolutions, StmtsRefs(body))
    ensures |st.scopes| > 0 && name.lexeme in st.scopes[0] ==> r == Abort(AlreadyDeclared(name.lexeme), st)
    ensures r.Done? && |st.scopes| > 0 ==>
      r.st.scopes[0].Keys == st.scopes[0].Keys + {name.lexeme} && r.st.scopes[0][name.lexeme]
    decreases Ast.StmtsSize(body), 3
  {
    var d := Declare(st, name);
    if d.Abort? then d
    else ResolveFunction(Define(d.st, name), params, body, Function)
  }

  /** `visit_return_stmt`: `return` outside a function is an error;
      otherwise the returned value, if any. */
  function ResolveReturn(st: State, value: Option<Ast.Expr>): (r: Outcome)
    ensures st.fn == NoFunction ==> r == Abort(ReturnOutsideFunction, st)
    ensures r.Done? ==> StmtDone(st, r.st, false)
    ensures IsPrefix(st.resolutions, r.st.resolutions)
    ensures r.Done? ==> Records(st.resolutions, r.st.resolutions, if value.Some? then Refs(value.value) else [])
    decreases if value.Some? then Ast.ExprSize(value.value) else 0, 1
  {
    if st.fn == NoFunction then Abort(ReturnOutsideFunction, st)
    else if value.None? then Done(st)
    else ResolveExprStmt(st, value.value)
  }

  /** `resolve_stmts`: in order, stopping at the first error. */
  function ResolveStmts(st: State, ss: seq<Ast.Stmt>): (r: Outcome)
    ensures r.Done? ==> StmtDone(st, r.st, AnyResets(ss))
    ensures IsPrefix(st.resolutions, r.st.resolutions)
    ensures r.Done? ==> Records(st.resolutions, r.st.resolutions, StmtsRefs(ss))
    decreases Ast.StmtsSize(ss), 1
  {
    if |ss| == 0 then Done(st)
    else
      var x := ResolveStmt(st, ss[0]);
      if x.Abort? then x
      else
        var y := ResolveStmts(x.st, ss[1..]);
        PrefixTrans(st.resolutions, x.st.resolutions, y.st.resolutions);
        if y.Abort? then y
        else
          AnyResetsCons(ss);
          StmtDoneTrans(st, x.st, y.st, ResetsFunction(ss[0]), AnyResets(ss[1..]));
          RecordsTrans(st.resolutions, x.st.resolutions, y.st.resolutions, StmtRefs(ss[0]), StmtsRefs(ss[1..]));
          y
  }

  /** `visit_var_stmt`: declare, resolve the initializer, then define. A
      completed declaration leaves the name defined in the innermost scope. */
  function ResolveVar(st: State, name: Tokens.Token, init: Option<Ast.Expr>): (r: Outcome)
    ensures r.Done? ==> StmtDone(st, r.st, false)
    ensures IsPrefix(st.resolutions, r.st.resolutions)
    ensures |st.scopes| > 0 && name.lexeme in st.scopes[0] ==> r == Abort(AlreadyDeclared(name.lexeme), st)
    ensures r.Done? && |st.scopes| > 0 ==>
      r.st.scopes[0].Keys == st.scopes[0].Keys + {name.lexeme} && r.st.scopes[0][name.lexeme]
    ensures r.Done? ==> Records(st.resolutions, r.st.resolutions, if init.Some? then Refs(init.value) else [])
  {
    var d := Declare(st, name);
    if d.Abort? then d
    else if init.None? then Done(Define(d.st, name))
    else
      var x := ResolveExpr(d.st, init.value);
      if x.Abort? then x else Done(Define(x.st, name))
  }

  /** `resolve_function`: a fresh scope holding the parameters, the body,
      and the previous scope stack and function kind restored. */
  function ResolveFunction(st: State, params: seq<Tokens.Token>, body: seq<Ast.Stmt>, kind: FunctionType): (r: Outcome)
    ensures r.Done? ==> r.st.scopes == st.scopes && r.st.fn == st.fn && r.st.cls == st.cls
    ensures IsPrefix(st.resolutions, r.st.resolutions)
    ensures r.Done? ==> Records(st.resolutions, r.st.resolutions, StmtsRefs(body))
    decreases Ast.StmtsSize(body), 2
  {
    var p := ResolveParams(BeginScope(st).(fn := kind), params);
    if p.Abort? then p
    else
      var b := ResolveStmts(p.st, body);
      if b.Abort? then b
      else Done(EndScope(b.st).(fn := st.fn))
  }

  /** The parameter loop of `resolve_function`: declare and define each. */
  function ResolveParams(st: State, params: seq<Tokens.Token>): (r: Outcome)
    ensures r.Done? ==> StmtDone(st, r.st, false) && r.st.resolutions == st.resolutions
    ensures r.st.resolutions == st.resolutions
    decreases |params|
  {
    if |params| == 0 then Done(st)
    else
      var d := Declare(st, params[0]);
      if d.Abort? then d
      else ResolveParams(Define(d.st, params[0]), params[1..])
  }

  /** The scope methods are resolved in: a new innermost scope where `this`
      is already defined, inside a class. */
  function ClassScope(st: State): (r: State)
    ensures |r.scopes| == |st.scopes| + 1 && r.scopes[0] == map["this" := true] && r.scopes[1..] == st.scopes
    ensures r.cls == Class && r.fn == st.fn && r.resolutions == st.resolutions
  {
    var s := BeginScope(st);
    s.(scopes := s.scopes[0 := s.scopes[0]["this" := true]], cls := Class)
  }

  /** `visit_class_decl_stmt`: declare and define the name, then resolve
      each method as a `Method` inside a scope where `this` is defined. */
  function ResolveClass(st: State, name: Tokens.Token, methods: seq<Ast.Method>): (r: Outcome)
    ensures r.Done? ==> StmtDone(st, r.st, false)
    ensures IsPrefix(st.resolutions, r.st.resolutions)
    ensures |st.scopes| > 0 && name.lexeme in st.scopes[0] ==> r == Abort(AlreadyDeclared(name.lexeme), st)
    ensures r.Done? && |st.scopes| > 0 ==>
      r.st.scopes[0].Keys == st.scopes[0].Keys + {name.lexeme} && r.st.scopes[0][name.lexeme]
    ensures r.Done? ==> Records(st.resolutions, r.st.resolutions, MethodsRefs(methods))
    decreases Ast.MethodsSize(methods), 1
  {
    var d := Declare(st, name);
    if d.Abort? then d
    else
      var s1 := Define(d.st, name);
      var m := ResolveMethods(ClassScope(s1), methods);
      if m.Abort? then m
      else Done(EndScope(m.st.(cls := s1.cls)))
  }

  /** The method loop of `visit_class_decl_stmt`. */
  function ResolveMethods(st: State, methods: seq<Ast.Method>): (r: Outcome)
    ensures r.Done? ==> r.st.scopes == st.scopes && r.st.fn == st.fn && r.st.cls == st.cls
    ensures IsPrefix(st.resolutions, r.st.resolutions)
    ensures r.Done? ==> Records(st.resolutions, r.st.resolutions, MethodsRefs(methods))
    decreases Ast.MethodsSize(methods), 0
  {
    if |methods| == 0 then Done(st)
    else
      var x := ResolveFunction(st, methods[0].params, methods[0].body, Method);
      if x.Abort? then x
      else
        var y := ResolveMethods(x.st, methods[1..]);
        PrefixTrans(st.resolutions, x.st.resolutions, y.st.resolutions);
        if y.Done? then
          RecordsTrans(st.resolutions, x.st.resolutions, y.st.resolutions, StmtsRefs(methods[0].body), MethodsRefs(methods[1..]));
          y
        else y
  }

  /** What `resolve_program` leaves behind: `had_error` and the resolutions
      handed to the interpreter. */
  datatype Report = Report(hadError: bool, resolutions: seq<Resolution>)

  /** `resolve_program`: resolves the program from a fresh resolver. */
  function ResolveProgram(program: Ast.Stmt): (r: Report)
    ensures var o := ResolveStmt(NewResolver(), program);
      (r.hadError <==> o.Abort?) && r.resolutions == o.st.resolutions
    ensures !r.hadError ==> Records([], r.resolutions, StmtRefs(program))
  {
    var o := ResolveStmt(NewResolver(), program);
    Report(o.Abort?, o.st.resolutions)
  }

  /* Properties. */

  /** Reading a name in its own initializer is rejected: `var a = a;`
      inside a scope that does not yet hold `a`. */
  lemma {:induction false} OwnInitializerRejected(st: State, name: Tokens.Token, read: Tokens.Token)
    requires |st.scopes| > 0 && name.lexeme !in st.scopes[0]
    requires read.lexeme == name.lexeme
    ensures ResolveStmt(st, Ast.Var(name, Some(Ast.Variable(read)))) == Abort(OwnInitializer, Declare(st, name).st)
  {
    var d := Declare(st, name);
    assert d.st.scopes[0][name.lexeme] == false;
  }

  /** A name no scope holds is an error, globals included: there is no
      fallback to a global environment. */
  lemma {:induction false} UnboundNameRejected(st: State, name: Tokens.Token)
    requires !InSomeScope(st.scopes, name.lexeme)
    ensures ResolveExpr(st, Ast.Variable(name)) == Abort(UndefinedVariable(name.lexeme), st)
  {
    if |st.scopes| > 0 {
      assert name.lexeme !in st.scopes[0];
    }
  }

  /** `return` outside a function is rejected, whatever it returns ... */
  lemma {:induction false} ReturnOutsideFunctionRejected(st: State, value: Option<Ast.Expr>)
    requires st.fn == NoFunction
    ensures ResolveStmt(st, Ast.Return(value)) == Abort(ReturnOutsideFunction, st)
  {
  }

  /** ... and a bare `return` inside one changes nothing. */
  lemma {:induction false} ReturnInsideFunction(st: State)
    requires st.fn != NoFunction
    ensures ResolveStmt(st, Ast.Return(None)) == Done(st)
  {
  }

  /** `this` outside a class is rejected. */
  lemma {:induction false} ThisOutsideClassRejected(st: State, keyword: Tokens.Token)
    requires st.cls == NoClass
    ensures ResolveExpr(st, Ast.This(keyword)) == Abort(ThisOutsideClass, st)
  {
  }

  /** Declaring a name twice in one scope is rejected ... */
  lemma {:induction false} RedeclarationRejected(st: State, a: Tokens.Token, b: Tokens.Token)
    requires |st.scopes| > 0 && a.lexeme !in st.scopes[0]
    requires b.lexeme == a.lexeme
    ensures var r := ResolveStmts(st, [Ast.Var(a, None), Ast.Var(b, None)]);
      r.Abort? && r.error == AlreadyDeclared(a.lexeme)
  {
    var x := ResolveStmt(st, Ast.Var(a, None));
    assert x.Done? && a.lexeme in x.st.scopes[0];
    var y := ResolveStmt(x.st, Ast.Var(b, None));
    assert y == Abort(AlreadyDeclared(a.lexeme), x.st);
    assert ResolveStmts(x.st, [Ast.Var(b, None)]) == y;
    assert [Ast.Var(a, None), Ast.Var(b, None)][1..] == [Ast.Var(b, None)];
  }

  /** ... but an inner block may shadow it. */
  lemma {:induction false} ShadowingAllowed(st: State, a: Tokens.Token, b: Tokens.Token)
    requires |st.scopes| > 0 && a.lexeme !in st.scopes[0]
    requires b.lexeme == a.lexeme
    ensures ResolveStmts(st, [Ast.Var(a, None), Ast.Block([Ast.Var(b, None)])]).Done?
  {
    var x := ResolveStmt(st, Ast.Var(a, None));
    assert x.Done?;
    var inner := BeginScope(x.st);
    assert ResolveStmt(inner, Ast.Var(b, None)).Done?;
    SingleStmt(inner, Ast.Var(b, None));
    assert ResolveStmt(x.st, Ast.Block([Ast.Var(b, None)])).Done?;
    SingleStmt(x.st, Ast.Block([Ast.Var(b, None)]));
    StmtsAppend(st, [Ast.Var(a, None)], [Ast.Block([Ast.Var(b, None)])]);
    SingleStmt(st, Ast.Var(a, None));
  }

  /** No two parameters share a name. */
  predicate DistinctNames(params: seq<Tokens.Token>) {
    forall i, j :: 0 <= i < j < |params| ==> params[i].lexeme != params[j].lexeme
  }

  /** The parameter loop completes exactly when the parameters' names are
      distinct and new to the innermost scope. */
  lemma {:induction false} ParamsAcceptedIffDistinct(st: State, params: seq<Tokens.Token>)
    requires |st.scopes| > 0
    ensures ResolveParams(st, params).Done? <==>
      DistinctNames(params) && forall i :: 0 <= i < |params| ==> params[i].lexeme !in st.scopes[0]
    decreases |params|
  {
    if |params| > 0 && params[0].lexeme !in st.scopes[0] {
      var next := Define(Declare(st, params[0]).st, params[0]);
      assert next.scopes[0].Keys == st.scopes[0].Keys + {params[0].lexeme};
      ParamsAcceptedIffDistinct(next, params[1..]);
      var rest := params[1..];
      if DistinctNames(rest) && forall i :: 0 <= i < |rest| ==> rest[i].lexeme !in next.scopes[0] {
        forall i, j | 0 <= i < j < |params| ensures params[i].lexeme != params[j].lexeme {
          assert params[j] == rest[j - 1];
          if i > 0 {
            assert params[i] == rest[i - 1];
          }
        }
        forall i | 0 <= i < |params| ensures params[i].lexeme !in st.scopes[0] {
          if i > 0 {
            assert params[i] == rest[i - 1];
          }
        }
      }
      if DistinctNames(params) && forall i :: 0 <= i < |params| ==> params[i].lexeme !in st.scopes[0] {
        forall i, j | 0 <= i < j < |rest| ensures rest[i].lexeme != rest[j].lexeme {
          assert rest[i] == params[i + 1] && rest[j] == params[j + 1];
        }
        forall i | 0 <= i < |rest| ensures rest[i].lexeme !in next.scopes[0] {
          assert rest[i] == params[i + 1];
        }
      }
    }
  }

  /** A function whose parameters repeat a name is rejected; parameters
      live in a fresh scope, so only the repetition matters. */
  lemma {:induction false} DuplicateParameterRejected(st: State, params: seq<Tokens.Token>, body: seq<Ast.Stmt>,
                                                      kind: FunctionType, i: nat, j: nat)
    requires i < j < |params| && params[i].lexeme == params[j].lexeme
    ensures ResolveFunction(st, params, body, kind).Abort?
  {
    ParamsAcceptedIffDistinct(BeginScope(st).(fn := kind), params);
  }

  /** A one-statement list resolves as its statement. */
  lemma {:induction false} SingleStmt(st: State, s: Ast.Stmt)
    ensures ResolveStmts(st, [s]) == ResolveStmt(st, s)
  {
    assert [s][1..] == [];
  }

  /** Resolving a statement list in two parts: the second part is resolved
      only when the first completes, so the first error ends the pass. */
  lemma {:induction false} StmtsAppend(st: State, a: seq<Ast.Stmt>, b: seq<Ast.Stmt>)
    ensures ResolveStmts(st, a + b) ==
      var x := ResolveStmts(st, a);
      if x.Abort? then x else ResolveStmts(x.st, b)
    decreases |a|
  {
    if |a| == 0 {
      assert a + b == b;
    } else {
      assert (a + b)[0] == a[0] && (a + b)[1..] == a[1..] + b;
      var x := ResolveStmt(st, a[0]);
      if x.Done? {
        StmtsAppend(x.st, a[1..], b);
      }
    }
  }

  /** In `{ var a; { a; } }` the read of `a` is resolved one scope out. */
  lemma {:induction false} NestedBlockDepth(st: State, a: Tokens.Token, read: Tokens.Token)
    requires read.lexeme == a.lexeme
    ensures var r := ResolveStmt(st, Ast.Block([Ast.Var(a, None), Ast.Block([Ast.Expression(Ast.Variable(read))])]));
      r.Done? && r.st.resolutions == st.resolutions + [Resolution(read, 1)]
  {
    var inner := [Ast.Expression(Ast.Variable(read))];
    var s1 := BeginScope(st);
    var s2 := ResolveStmt(s1, Ast.Var(a, None)).st;
    assert ResolveStmt(s1, Ast.Var(a, None)) == Done(s2);
    assert s2.scopes[0] == map[a.lexeme := true];
    var s3 := BeginScope(s2);
    assert FindScope(s3.scopes, read.lexeme, 1) == Some(1);
    assert FindScope(s3.scopes, read.lexeme, 0) == Some(1);
    var s4 := s3.(resolutions := st.resolutions + [Resolution(read, 1)]);
    assert ResolveExpr(s3, Ast.Variable(read)) == Done(s4);
    SingleStmt(s3, inner[0]);
    assert ResolveStmt(s2, Ast.Block(inner)) == Done(EndScope(s4));
    SingleStmt(s2, Ast.Block(inner));
    SingleStmt(s1, Ast.Var(a, None));
    StmtsAppend(s1, [Ast.Var(a, None)], [Ast.Block(inner)]);
    assert [Ast.Var(a, None)] + [Ast.Block(inner)] == [Ast.Var(a, None), Ast.Block(inner)];
  }

  /** Inside a method `this` resolves to the class's scope, one out from
      the method's own scope. */
  lemma {:induction false} ThisInsideMethod(st: State, c: Tokens.Token, m: Tokens.Token, keyword: Tokens.Token)
    requires |st.scopes| == 0 || c.lexeme !in st.scopes[0]
    requires keyword.lexeme == "this"
    ensures var r := ResolveStmt(st, Ast.ClassDecl(c, [Ast.Method(m, [], [Ast.Return(Some(Ast.This(keyword)))])]));
      r.Done? && r.st.resolutions == st.resolutions + [Resolution(keyword, 1)]
  {
    var body := [Ast.Return(Some(Ast.This(keyword)))];
    var methods := [Ast.Method(m, [], body)];
    var s1 := Define(Declare(st, c).st, c);
    var inner := ClassScope(s1);
    var f := BeginScope(inner).(fn := Method);
    assert ResolveParams(f, []) == Done(f);
    ReturnThisInMethod(f, keyword);
    var g := f.(resolutions := f.resolutions + [Resolution(keyword, 1)]);
    var h := EndScope(g).(fn := inner.fn);
    assert ResolveFunction(inner, [], body, Method) == Done(h);
    assert methods[1..] == [];
    assert ResolveMethods(inner, methods) == Done(h);
  }

  /** `return this;` directly inside a method body: `this` is one scope out. */
  lemma {:induction false} ReturnThisInMethod(f: State, keyword: Tokens.Token)
    requires |f.scopes| >= 2 && f.scopes[0] == map[] && f.scopes[1] == map["this" := true]
    requires f.fn == Method && f.cls == Class && keyword.lexeme == "this"
    ensures ResolveStmts(f, [Ast.Return(Some(Ast.This(keyword)))]) ==
      Done(f.(resolutions := f.resolutions + [Resolution(keyword, 1)]))
  {
    var g := f.(resolutions := f.resolutions + [Resolution(keyword, 1)]);
    assert FindScope(f.scopes, "this", 1) == Some(1);
    assert FindScope(f.scopes, "this", 0) == Some(1);
    assert ResolveLocal(f, keyword) == Done(g);
    assert ResolveExpr(f, Ast.This(keyword)) == Done(g);
    assert ResolveStmt(f, Ast.Return(Some(Ast.This(keyword)))) == Done(g);
    SingleStmt(f, Ast.Return(Some(Ast.This(keyword))));
  }

  /** A class's methods are resolved after its name is defined, in a new
      innermost scope that binds `this` and marks the class context; the
      class declaration completes exactly when its methods do, and records
      exactly their resolutions. */
  lemma {:induction false} ClassMethodsSeeThis(st: State, name: Tokens.Token, methods: seq<Ast.Method>)
    requires Declare(st, name).Done?
    ensures var inner := ClassScope(Define(Declare(st, name).st, name));
      var m := ResolveMethods(inner, methods);
      var r := ResolveClass(st, name, methods);
      && inner.scopes[0]["this"] && inner.cls == Class
      && (|st.scopes| > 0 ==> name.lexeme in inner.scopes[1] && inner.scopes[1][name.lexeme])
      && (r.Done? <==> m.Done?)
      && r.st.resolutions == m.st.resolutions
  {
  }
}

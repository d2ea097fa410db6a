/** How the components fit together: what one stage produces is what the
    next one accepts. */
module Pipeline {
  import opened Common
  import Tokens
  import Ast
  import Scanner
  import Parser
  import Printer
  import Resolver
  import Env
  import Values

  /** The scanner's output is a token sequence the parser accepts: it ends
      in EOF and every number or string token carries its literal. */
  lemma {:induction false} ScannedTokensAreReady(src: string)
    ensures Parser.Ready(Scanner.ScanTokens(src))
  {
    var ts := Scanner.ScanTokens(src);
    forall i | 0 <= i < |ts| ensures Tokens.LiteralAttached(ts[i]) {
      if i < |ts| - 1 {
        assert Scanner.WellFormed(ts[i]);
      }
    }
  }

  /** Every expression the parser builds is one the printer renders. */
  lemma {:induction false} PrecedencedIsPrintable(e: Ast.Expr)
    requires Parser.WellPrecedenced(e)
    ensures Printer.Printable(e)
  {
    match e
    case Binary(l, _, r) =>
      PrecedencedIsPrintable(l);
      PrecedencedIsPrintable(r);
    case Unary(_, r) =>
      PrecedencedIsPrintable(r);
    case Grouping(x) =>
      PrecedencedIsPrintable(x);
    case Literal(_) =>
    case Variable(_) =>
  }

  lemma {:induction false} ParsedStmtIsPrintable(s: Ast.Stmt)
    requires Parser.ParsedStmt(s)
    ensures Printer.PrintableStmt(s)
  {
    match s
    case Var(_, init) =>
      if init.Some? {
        PrecedencedIsPrintable(init.value);
      }
    case Print(e) =>
      PrecedencedIsPrintable(e);
    case Expression(e) =>
      PrecedencedIsPrintable(e);
  }

  /** The printer renders every program the parser returns. */
  lemma {:induction false} ParsedProgramIsPrintable(ts: seq<Tokens.Token>, u: string -> Option<string>)
    requires Parser.Ready(ts)
    ensures Printer.PrintableStmt(Parser.Parse(ts, u).program)
  {
    var ss := Parser.Parse(ts, u).program.statements;
    forall i | 0 <= i < |ss| ensures Printer.PrintableStmt(ss[i]) {
      ParsedStmtIsPrintable(ss[i]);
    }
  }

  /** Scanning then parsing any source text yields a printable program. */
  lemma {:induction false} SourceIsPrintable(src: string, u: string -> Option<string>)
    ensures Printer.PrintableStmt(Parser.Parse(Scanner.ScanTokens(src), u).program)
  {
    ScannedTokensAreReady(src);
    ParsedProgramIsPrintable(Scanner.ScanTokens(src), u);
  }

  /** Run-time frames that hold the same names as the resolver's scopes. */
  predicate Mirrors(scopes: seq<Resolver.Scope>, chain: seq<Env.Frame>) {
    |chain| == |scopes| && forall i :: 0 <= i < |scopes| ==> chain[i].Keys == scopes[i].Keys
  }

  /** A depth the resolver records is the nearest frame holding the name at
      run time, when the frames mirror the scopes; reading or assigning at
      that depth is then the same as the dynamic lookup or assignment. */
  lemma {:induction false} ResolvedDepthIsNearestFrame(scopes: seq<Resolver.Scope>, env: Env.Environment,
                                                       name: Tokens.Token, d: nat, value: Values.Value)
    requires Mirrors(scopes, env.values)
    requires Resolver.NearestScope(scopes, name.lexeme, d)
    ensures Env.NearestFrame(env.values, name.lexeme, d)
    ensures Env.GetByDepth(env, name, d) == Env.Get(env, name)
    ensures Env.AssignByDepth(env, name, value, d) == Env.Assign(env, name, value)
  {
    assert name.lexeme in env.values[d];
    forall j | 0 <= j < d ensures name.lexeme !in env.values[j] {
      assert name.lexeme !in scopes[j];
    }
    Env.GetByDepthAgreesWithGet(env, name, d);
    Env.AssignByDepthAgreesWithAssign(env, name, value, d);
  }

  /** Every resolution an expression pass records is such a depth. */
  lemma {:induction false} ExprResolutionsAreNearestFrames(st: Resolver.State, e: Ast.Expr, env: Env.Environment, k: nat)
    requires Mirrors(st.scopes, env.values)
    requires |st.resolutions| <= k < |Resolver.ResolveExpr(st, e).st.resolutions|
    ensures var res := Resolver.ResolveExpr(st, e).st.resolutions[k];
      Env.GetByDepth(env, res.name, res.depth) == Env.Get(env, res.name)
  {
    var res := Resolver.ResolveExpr(st, e).st.resolutions[k];
    ResolvedDepthIsNearestFrame(st.scopes, env, res.name, res.depth, Values.Null);
  }

  /** Conversely, when every reference of an expression is acceptable, the
      pass completes and the i-th reference gets the i-th new resolution,
      whose depth reads the same as the dynamic lookup. */
  lemma {:induction false} ExprReferencesResolveToFrames(st: Resolver.State, e: Ast.Expr, env: Env.Environment, i: nat)
    requires Mirrors(st.scopes, env.values)
    requires Resolver.AllOk(st.scopes, st.cls, Resolver.Refs(e))
    requires i < |Resolver.Refs(e)|
    ensures var r := Resolver.ResolveExpr(st, e);
      && r.Done?
      && |st.resolutions| + i < |r.st.resolutions|
      && var res := r.st.resolutions[|st.resolutions| + i];
      && res.name == Resolver.Refs(e)[i].name
      && Env.GetByDepth(env, res.name, res.depth) == Env.Get(env, res.name)
  {
    ExprResolutionsAreNearestFrames(st, e, env, |st.resolutions| + i);
  }
}

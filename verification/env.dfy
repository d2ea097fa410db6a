/** The runtime environment (src/env.rs).

    In the source an `Environment` points at the current `EnvItem`, whose
    `parent` links form a chain, and separately at the global `EnvItem`. Here
    the chain is a non-empty sequence of frames, innermost first, so that the
    frame `depth` parents up is `values[depth]`; frames are values, not shared
    cells. */
module Env {
  import opened Common
  import opened Values
  import Tokens

  type Frame = map<string, Value>

  /** A chain always holds at least the frame it starts from. */
  type Chain = c: seq<Frame> | |c| > 0 witness [map[]]

  /** The call-depth ceiling (`MAX_CALL_STACK`). */
  const MaxCallStack: nat := 255

  datatype Environment = Environment(callStack: nat, values: Chain, global: Frame)

  /* Errors raised by the environment. */

  function InvalidToken(name: Tokens.Token): Error {
    Error(Runtime, "Invalid token type '" + name.lexeme + "'.")
  }

  function UndefinedVariable(name: string): Error {
    Error(Runtime, "Undefined variable '" + name + "'.")
  }

  /** `i` is the innermost frame of `chain` that binds `name`. */
  predicate NearestFrame(chain: seq<Frame>, name: string, i: int) {
    0 <= i < |chain| && name in chain[i] && forall j :: 0 <= j < i ==> name !in chain[j]
  }

  predicate Bound(chain: seq<Frame>, name: string) {
    exists i :: 0 <= i < |chain| && name in chain[i]
  }

  /** Token kinds that `get` and `get_by_depth` accept. */
  predicate Readable(name: Tokens.Token) {
    name.tokenType == Tokens.Identifier || name.tokenType == Tokens.This || name.tokenType == Tokens.Super
  }

  /** Token kinds that `assign` and `assign_by_depth` accept. */
  predicate Writable(name: Tokens.Token) {
    name.tokenType == Tokens.Identifier
  }

  /** `Environment::new`: a fresh global frame that is also the current frame. */
  function New(): (env: Environment)
    ensures env.callStack == 0
    ensures |env.values| == 1 && env.values[0] == env.global
    ensures forall name :: !Bound(env.values, name) && name !in env.global
  {
    Environment(0, [map[]], map[])
  }

  /** `Environment::from`: the environment of a call at depth `callStack`,
      running in `closure` with access to `global`. */
  function From(callStack: nat, global: Frame, closure: Chain): (r: Result<Environment>)
    ensures r.Failure? <==> callStack > MaxCallStack
    ensures r.Failure? ==> r.error == Error(Runtime, "Stack overflow.")
    ensures r.Success? ==> r.value.callStack == callStack && r.value.values == closure && r.value.global == global
  {
    if callStack > MaxCallStack then Failure(Error(Runtime, "Stack overflow."))
    else Success(Environment(callStack, closure, global))
  }

  /** `enter_scope`: a new empty frame whose parent is the old current frame. */
  function EnterScope(env: Environment): (r: Environment)
    ensures r.values[0] == map[] && r.values[1..] == env.values
    ensures r.callStack == env.callStack && r.global == env.global
  {
    env.(values := [map[]] + env.values)
  }

  /** `exit_scope`: back to the parent frame. The source panics when the
      current frame has no parent, so a parent is required. */
  function ExitScope(env: Environment): (r: Environment)
    requires |env.values| > 1
    ensures r.values == env.values[1..]
    ensures r.callStack == env.callStack && r.global == env.global
  {
    env.(values := env.values[1..])
  }

  /** `define`: binds in the current frame only, replacing any binding there. */
  function Define(env: Environment, name: string, value: Value): (r: Environment)
    ensures |r.values| == |env.values| && r.values[1..] == env.values[1..]
    ensures r.values[0].Keys == env.values[0].Keys + {name}
    ensures r.values[0][name] == value
    ensures forall k :: k in env.values[0] && k != name ==> r.values[0][k] == env.values[0][k]
    ensures r.global == env.global && r.callStack == env.callStack
  {
    env.(values := [env.values[0][name := value]] + env.values[1..])
  }

  /** `define_globally`: binds in the global frame only. */
  function DefineGlobally(env: Environment, name: string, value: Value): (r: Environment)
    ensures r.global.Keys == env.global.Keys + {name} && r.global[name] == value
    ensures forall k :: k in env.global && k != name ==> r.global[k] == env.global[k]
    ensures r.values == env.values && r.callStack == env.callStack
  {
    env.(global := env.global[name := value])
  }

  /** When the first frame does not bind `name`, the chain binds it exactly
      when its parents do. */
  lemma {:induction false} BoundInTail(chain: seq<Frame>, name: string)
    requires |chain| > 0 && name !in chain[0]
    ensures Bound(chain[1..], name) <==> Bound(chain, name)
  {
    if Bound(chain[1..], name) {
      var i :| 0 <= i < |chain[1..]| && name in chain[1..][i];
      assert name in chain[i + 1];
    }
    if Bound(chain, name) {
      var i :| 0 <= i < |chain| && name in chain[i];
      assert i > 0 && name in chain[1..][i - 1];
    }
  }

  /** Updating a parent frame and putting the first frame back in front is
      the same as updating the whole chain one position further out. */
  lemma {:induction false} ConsUpdate(chain: seq<Frame>, i: nat, f: Frame)
    requires i + 1 < |chain|
    ensures [chain[0]] + chain[1..][i := f] == chain[i + 1 := f]
  {
  }

  /** `get_helper`: walks the parent chain outward, returning the first binding. */
  function GetHelper(chain: seq<Frame>, name: string): (r: Option<Value>)
    ensures r.Some? <==> Bound(chain, name)
    ensures r.Some? ==> exists i :: NearestFrame(chain, name, i) && r.value == chain[i][name]
  {
    if |chain| == 0 then None
    else if name in chain[0] then Some(chain[0][name])
    else
      var r := GetHelper(chain[1..], name);
      BoundInTail(chain, name);
      if r.Some? then
        ghost var i :| NearestFrame(chain[1..], name, i) && r.value == chain[1..][i][name];
        assert NearestFrame(chain, name, i + 1);
        r
      else r
  }

  /** `get`: dynamic lookup along the chain of the current frame. */
  function Get(env: Environment, name: Tokens.Token): (r: Result<Value>)
    ensures !Readable(name) ==> r == Failure(InvalidToken(name))
    ensures Readable(name) && !Bound(env.values, name.lexeme) ==> r == Failure(UndefinedVariable(name.lexeme))
    ensures Readable(name) && Bound(env.values, name.lexeme) ==>
      r.Success? && exists i :: NearestFrame(env.values, name.lexeme, i) && r.value == env.values[i][name.lexeme]
  {
    if !Readable(name) then Failure(InvalidToken(name))
    else match GetHelper(env.values, name.lexeme)
      case Some(v) => Success(v)
      case None => Failure(UndefinedVariable(name.lexeme))
  }

  /** The loop of `assign`: overwrites the first frame binding `name`;
      `None` when no frame binds it. */
  function AssignHelper(chain: seq<Frame>, name: string, value: Value): (r: Option<seq<Frame>>)
    ensures r.Some? <==> Bound(chain, name)
    ensures r.Some? ==> exists i :: NearestFrame(chain, name, i) && r.value == chain[i := chain[i][name := value]]
  {
    if |chain| == 0 then None
    else if name in chain[0] then
      assert NearestFrame(chain, name, 0);
      Some(chain[0 := chain[0][name := value]])
    else
      var r := AssignHelper(chain[1..], name, value);
      BoundInTail(chain, name);
      if r.Some? then
        ghost var i :| NearestFrame(chain[1..], name, i) && r.value == chain[1..][i := chain[1..][i][name := value]];
        assert NearestFrame(chain, name, i + 1);
        ConsUpdate(chain, i, chain[1..][i][name := value]);
        Some([chain[0]] + r.value)
      else None
  }

  /** `assign`: overwrites the nearest binding; never creates one. */
  function Assign(env: Environment, name: Tokens.Token, value: Value): (r: Result<Environment>)
    ensures !Writable(name) ==> r == Failure(InvalidToken(name))
    ensures Writable(name) && !Bound(env.values, name.lexeme) ==> r == Failure(UndefinedVariable(name.lexeme))
    ensures Writable(name) && Bound(env.values, name.lexeme) ==>
      r.Success? && r.value.global == env.global && r.value.callStack == env.callStack &&
      exists i :: NearestFrame(env.values, name.lexeme, i) &&
        r.value.values == env.values[i := env.values[i][name.lexeme := value]]
  {
    if !Writable(name) then Failure(InvalidToken(name))
    else match AssignHelper(env.values, name.lexeme, value)
      case Some(chain) => Success(env.(values := chain))
      case None => Failure(UndefinedVariable(name.lexeme))
  }

  /** `ancestor`: the frame `depth` parents up. Walking past the root panics in
      the source, so the depth must be within the chain. */
  function Ancestor(chain: seq<Frame>, depth: nat): (r: Frame)
    requires depth < |chain|
    ensures r == chain[depth]
  {
    if depth == 0 then chain[0] else Ancestor(chain[1..], depth - 1)
  }

  /** `get_by_depth`: looks only in the frame `depth` parents up. The token
      kind is checked first, so a wrong kind fails at any depth. */
  function GetByDepth(env: Environment, name: Tokens.Token, depth: nat): (r: Result<Value>)
    requires Readable(name) ==> depth < |env.values|
    ensures !Readable(name) ==> r == Failure(InvalidToken(name))
    ensures Readable(name) ==>
      (r.Success? <==> name.lexeme in env.values[depth]) &&
      (r.Success? ==> r.value == env.values[depth][name.lexeme]) &&
      (r.Failure? ==> r.error == UndefinedVariable(name.lexeme))
  {
    if !Readable(name) then Failure(InvalidToken(name))
    else
      var frame := Ancestor(env.values, depth);
      if name.lexeme in frame then Success(frame[name.lexeme])
      else Failure(UndefinedVariable(name.lexeme))
  }

  /** `assign_by_depth`: overwrites only in the frame `depth` parents up. The
      token kind is checked first, so a wrong kind fails at any depth. */
  function AssignByDepth(env: Environment, name: Tokens.Token, value: Value, depth: nat): (r: Result<Environment>)
    requires Writable(name) ==> depth < |env.values|
    ensures !Writable(name) ==> r == Failure(InvalidToken(name))
    ensures Writable(name) ==>
      (r.Success? <==> name.lexeme in env.values[depth]) &&
      (r.Success? ==> r.value.values == env.values[depth := env.values[depth][name.lexeme := value]]
                      && r.value.global == env.global && r.value.callStack == env.callStack) &&
      (r.Failure? ==> r.error == UndefinedVariable(name.lexeme))
  {
    if !Writable(name) then Failure(InvalidToken(name))
    else
      var frame := Ancestor(env.values, depth);
      if name.lexeme in frame then Success(env.(values := env.values[depth := frame[name.lexeme := value]]))
      else Failure(UndefinedVariable(name.lexeme))
  }

  /* Properties relating the operations. */

  /** The walk of `get_helper` stops at the nearest frame binding the name. */
  lemma {:induction false} GetHelperFindsNearest(chain: seq<Frame>, name: string, i: nat)
    requires NearestFrame(chain, name, i)
    ensures GetHelper(chain, name) == Some(chain[i][name])
  {
    if i > 0 {
      assert name !in chain[0];
      assert NearestFrame(chain[1..], name, i - 1);
      GetHelperFindsNearest(chain[1..], name, i - 1);
    }
  }

  /** The walk of `assign` overwrites exactly the nearest frame binding the name. */
  lemma {:induction false} AssignHelperWritesNearest(chain: seq<Frame>, name: string, value: Value, i: nat)
    requires NearestFrame(chain, name, i)
    ensures AssignHelper(chain, name, value) == Some(chain[i := chain[i][name := value]])
  {
    if i > 0 {
      assert name !in chain[0];
      assert NearestFrame(chain[1..], name, i - 1);
      AssignHelperWritesNearest(chain[1..], name, value, i - 1);
      assert [chain[0]] + chain[1..][i - 1 := chain[i][name := value]] == chain[i := chain[i][name := value]];
    }
  }

  /** Resolved and dynamic lookup agree when the depth is that of the nearest
      frame binding the name. */
  lemma {:induction false} GetByDepthAgreesWithGet(env: Environment, name: Tokens.Token, d: nat)
    requires NearestFrame(env.values, name.lexeme, d)
    ensures GetByDepth(env, name, d) == Get(env, name)
  {
    GetHelperFindsNearest(env.values, name.lexeme, d);
  }

  /** Resolved assignment at the nearest binding depth is dynamic assignment. */
  lemma {:induction false} AssignByDepthAgreesWithAssign(env: Environment, name: Tokens.Token, value: Value, d: nat)
    requires NearestFrame(env.values, name.lexeme, d)
    ensures AssignByDepth(env, name, value, d) == Assign(env, name, value)
  {
    AssignHelperWritesNearest(env.values, name.lexeme, value, d);
  }

  /** Resolved lookup fails at a frame without the name, even when another
      frame on the chain binds it. */
  lemma {:induction false} GetByDepthIgnoresOtherFrames(env: Environment, name: Tokens.Token, d: nat)
    requires Readable(name) && d < |env.values| && name.lexeme !in env.values[d]
    ensures GetByDepth(env, name, d) == Failure(UndefinedVariable(name.lexeme))
  {
  }

  /** Leaving a scope just entered restores the environment. */
  lemma {:induction false} ExitUndoesEnter(env: Environment)
    ensures |EnterScope(env).values| > 1
    ensures ExitScope(EnterScope(env)) == env
  {
  }

  /** A fresh scope hides nothing: every lookup sees what it saw before. */
  lemma {:induction false} EnterScopeKeepsLookups(env: Environment, name: Tokens.Token)
    ensures Get(EnterScope(env), name) == Get(env, name)
  {
    var e := EnterScope(env);
    assert e.values[1..] == env.values;
  }

  /** After `define`, reading the name gives the defined value. */
  lemma {:induction false} GetAfterDefine(env: Environment, name: Tokens.Token, value: Value)
    requires Readable(name)
    ensures Get(Define(env, name.lexeme, value), name) == Success(value)
  {
  }

  /** After a successful `assign`, reading the name gives the assigned value,
      and every frame binds exactly the names it bound before. */
  lemma {:induction false} GetAfterAssign(env: Environment, name: Tokens.Token, value: Value)
    requires Writable(name) && Assign(env, name, value).Success?
    ensures Get(Assign(env, name, value).value, name) == Success(value)
    ensures var e := Assign(env, name, value).value;
      |e.values| == |env.values| && forall k :: 0 <= k < |e.values| ==> e.values[k].Keys == env.values[k].Keys
  {
    var e := Assign(env, name, value).value;
    var i :| NearestFrame(env.values, name.lexeme, i) && e.values == env.values[i := env.values[i][name.lexeme := value]];
    assert NearestFrame(e.values, name.lexeme, i);
    GetHelperFindsNearest(e.values, name.lexeme, i);
  }
}

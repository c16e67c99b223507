/** The interpreter as repl.py runs it: the scope arena and the four
    function registries are fields updated in place, `declare` and `assign`
    write the frame dicts, `eval_while` and `eval_call` are loops, and
    `p_statement_def` fills the registries in a loop. Every method is proved
    to produce the result and the new state that the reference functions of
    modules Eval and Registry compute from the old state, so everything
    proved about those functions holds of these methods. */
module Interp {
  import opened Ast
  import opened PyOps
  import opened Scopes
  import opened Typer
  import Eval
  import Registry

  class Interpreter {
    var frames: seq<Frame>
    var functions: map<string, Expr>
    var functionTypes: map<string, Type>
    var arguments: map<string, seq<string>>
    var functionScopes: map<string, nat>
    var output: seq<Value>

    /** The fields as one value of the reference semantics. */
    function State(): Eval.State
      reads this
    {
      Eval.State(frames, functions, functionTypes, arguments, functionScopes, output)
    }

    ghost predicate Valid()
      reads this
    {
      Eval.Valid(State())
    }

    /** Process start: only `global_scope`, empty registries. */
    constructor ()
      ensures State() == Eval.Initial() && Valid()
    {
      frames := [Frame(map[], map[], None)];
      functions := map[];
      functionTypes := map[];
      arguments := map[];
      functionScopes := map[];
      output := [];
    }

    /** `Scope(parent=p)`: appends a frame and returns its index. */
    method NewScope(p: nat) returns (n: nat)
      requires Valid() && p < |frames|
      modifies this
      ensures State() == Eval.PushScope(old(State()), p) && n == |old(frames)|
    {
      PushWellLinked(frames, p);
      n := |frames|;
      frames := frames + [NewFrame(p)];
    }

    /** `evaluate(expression, scope)`: a bare value is its own result,
        a name is looked up, every other node goes to its `eval_*`. */
    method Evaluate(fuel: nat, e: Expr, sc: nat) returns (r: Result<Value>)
      requires Valid() && sc < |frames|
      modifies this
      ensures (r, State()) == Eval.Evaluate(fuel, e, sc, old(State()))
      decreases fuel, 1
    {
      if fuel == 0 {
        return Err(OutOfFuel);
      }
      match e
      case Lit(v) => r := Ok(v);
      case Name(x) => r := LookupValue(frames, sc, x);
      case Binop(_, _, _) => r := EvaluateArithmetic(fuel, e, sc);
      case Uminus(_) => r := EvaluateArithmetic(fuel, e, sc);
      case Not(_) => r := EvaluateBuiltin(fuel, e, sc);
      case Print(_) => r := EvaluateBuiltin(fuel, e, sc);
      case Convert(_, _, _) => r := EvaluateBuiltin(fuel, e, sc);
      case Assign(_, _) => r := EvaluateBinding(fuel, e, sc);
      case Declare(_, _, _) => r := EvaluateBinding(fuel, e, sc);
      case Sequence(_, _) => r := EvaluateBinding(fuel, e, sc);
      case Block(_) => r := EvaluateScoped(fuel, e, sc);
      case If(_, _, _) => r := EvaluateScoped(fuel, e, sc);
      case While(_, _) => r := EvaluateRepeated(fuel, e, sc);
      case Call(_, _) => r := EvaluateRepeated(fuel, e, sc);
    }

    /** The `eval_fun` entries for the arithmetic nodes. */
    method EvaluateArithmetic(fuel: nat, e: Expr, sc: nat) returns (r: Result<Value>)
      requires Valid() && sc < |frames| && fuel > 0
      requires e.Binop? || e.Uminus?
      modifies this
      ensures (r, State()) == Eval.Evaluate(fuel, e, sc, old(State()))
      decreases fuel, 0
    {
      Eval.EvaluateOperatorNode(fuel, e, sc, State());
      match e
      case Binop(l, op, rr) => r := EvalBinop(fuel - 1, l, op, rr, sc);
      case Uminus(o) => r := EvalUminus(fuel - 1, o, sc);
    }

    /** The `eval_fun` entries for `not`, `print` and the conversions. */
    method EvaluateBuiltin(fuel: nat, e: Expr, sc: nat) returns (r: Result<Value>)
      requires Valid() && sc < |frames| && fuel > 0
      requires e.Not? || e.Print? || e.Convert?
      modifies this
      ensures (r, State()) == Eval.Evaluate(fuel, e, sc, old(State()))
      decreases fuel, 0
    {
      Eval.EvaluateOperatorNode(fuel, e, sc, State());
      match e
      case Not(o) => r := EvalNot(fuel - 1, o, sc);
      case Print(o) => r := EvalPrint(fuel - 1, o, sc);
      case Convert(t, _, o) => r := EvalConvert(fuel - 1, t, o, sc);
    }

    /** The `eval_fun` entries for assignment, declaration and sequence. */
    method EvaluateBinding(fuel: nat, e: Expr, sc: nat) returns (r: Result<Value>)
      requires Valid() && sc < |frames| && fuel > 0
      requires e.Assign? || e.Declare? || e.Sequence?
      modifies this
      ensures (r, State()) == Eval.Evaluate(fuel, e, sc, old(State()))
      decreases fuel, 0
    {
      match e
      case Assign(x, rhs) => r := EvalAssign(fuel - 1, x, rhs, sc);
      case Declare(t, x, rhs) => r := EvalDeclare(fuel - 1, t, x, rhs, sc);
      case Sequence(a, b) => r := EvalSequence(fuel - 1, a, b, sc);
    }

    /** The `eval_fun` entries for a block and a conditional, which open
        one scope and evaluate in it once. */
    method EvaluateScoped(fuel: nat, e: Expr, sc: nat) returns (r: Result<Value>)
      requires Valid() && sc < |frames| && fuel > 0
      requires e.Block? || e.If?
      modifies this
      ensures (r, State()) == Eval.Evaluate(fuel, e, sc, old(State()))
      decreases fuel, 0
    {
      match e
      case Block(b) => r := EvalBlock(fuel - 1, b, sc);
      case If(c, t, f) => r := EvalIf(fuel - 1, c, t, f, sc);
    }

    /** The `eval_fun` entries for a loop and a call, which open one scope
        and evaluate in it repeatedly. */
    method EvaluateRepeated(fuel: nat, e: Expr, sc: nat) returns (r: Result<Value>)
      requires Valid() && sc < |frames| && fuel > 0
      requires e.While? || e.Call?
      modifies this
      ensures (r, State()) == Eval.Evaluate(fuel, e, sc, old(State()))
      decreases fuel, 0
    {
      Eval.EvaluateRepeatedNode(fuel, e, sc, State());
      match e
      case While(c, b) => r := EvalWhile(fuel - 1, c, b, sc);
      case Call(f, args) => r := EvalCall(fuel - 1, f, args, sc);
    }

    /** `Scope.declare` on frame sc. */
    method Declare(fuel: nat, sc: nat, x: string, t: Type, e: Expr) returns (r: Result<Value>)
      requires Valid() && sc < |frames|
      modifies this
      ensures (r, State()) == Eval.ScopeDeclare(fuel, sc, x, t, e, old(State()))
      decreases fuel, 2
    {
      ghost var st0 := State();
      ghost var goal := Eval.ScopeDeclare(fuel, sc, x, t, e, st0);
      if x in frames[sc].types {
        assert goal == (Err(RuntimeError), st0);
        return Err(RuntimeError);
      }
      frames := SetType(frames, sc, x, t);
      ghost var st1 := State();
      r := Evaluate(fuel, e, sc);
      ghost var st2 := State();
      assert (r, st2) == Eval.Evaluate(fuel, e, sc, st1);
      if r.Ok? {
        frames := SetValue(frames, sc, x, r.value);
        assert goal == (r, st2.(frames := SetValue(st2.frames, sc, x, r.value)));
      } else {
        assert goal == (r, st2);
      }
    }

    /** `Scope.assign` on frame sc. */
    method Assign(fuel: nat, sc: nat, x: string, e: Expr) returns (r: Result<Value>)
      requires Valid() && sc < |frames|
      modifies this
      ensures (r, State()) == Eval.ScopeAssign(fuel, sc, x, e, old(State()))
      decreases fuel, 2
    {
      ghost var st0 := State();
      ghost var goal := Eval.ScopeAssign(fuel, sc, x, e, st0);
      var chk := Eval.AssignCheck(sc, x, e, State());
      if chk.Err? {
        return Err(chk.error);
      }
      r := Evaluate(fuel, e, sc);
      ghost var st2 := State();
      assert (r, st2) == Eval.Evaluate(fuel, e, sc, st0);
      if r.Ok? {
        frames := SetValue(frames, sc, x, r.value);
        assert goal == (r, st2.(frames := SetValue(st2.frames, sc, x, r.value)));
      } else {
        assert goal == (r, st2);
      }
    }

    method EvalAssign(fuel: nat, x: string, e: Expr, sc: nat) returns (r: Result<Value>)
      requires Valid() && sc < |frames|
      modifies this
      ensures (r, State()) == Eval.EvalAssign(fuel, x, e, sc, old(State()))
      decreases fuel, 4
    {
      ghost var st0 := State();
      ghost var goal := Eval.EvalAssign(fuel, x, e, sc, st0);
      var te := GetType(e, frames, sc, functionTypes);
      assert te == Eval.TypeOf(e, sc, st0);
      if te.Err? {
        assert goal == (Err(te.error), st0);
        return Err(te.error);
      }
      var tx := LookupType(frames, sc, x);
      if tx.Err? {
        assert goal == (Err(tx.error), st0);
        return Err(tx.error);
      }
      if !TypeEq(tx.value, te.value) {
        assert goal == (Err(TypeError), st0);
        return Err(TypeError);
      }
      assert goal == Eval.ScopeAssign(fuel, sc, x, e, st0);
      r := Assign(fuel, sc, x, e);
    }

    method EvalDeclare(fuel: nat, t: Type, x: string, e: Expr, sc: nat) returns (r: Result<Value>)
      requires Valid() && sc < |frames|
      modifies this
      ensures (r, State()) == Eval.EvalDeclare(fuel, t, x, e, sc, old(State()))
      decreases fuel, 4
    {
      ghost var st0 := State();
      ghost var goal := Eval.EvalDeclare(fuel, t, x, e, sc, st0);
      var te := GetType(e, frames, sc, functionTypes);
      assert te == Eval.TypeOf(e, sc, st0);
      if te.Err? {
        assert goal == (Err(te.error), st0);
        return Err(te.error);
      }
      if !TypeEq(te.value, t) {
        assert goal == (Err(TypeError), st0);
        return Err(TypeError);
      }
      assert goal == Eval.ScopeDeclare(fuel, sc, x, t, e, st0);
      r := Declare(fuel, sc, x, t, e);
    }

    method EvalSequence(fuel: nat, a: Expr, b: Expr, sc: nat) returns (r: Result<Value>)
      requires Valid() && sc < |frames|
      modifies this
      ensures (r, State()) == Eval.EvalSequence(fuel, a, b, sc, old(State()))
      decreases fuel, 4
    {
      ghost var st0 := State();
      ghost var goal := Eval.EvalSequence(fuel, a, b, sc, st0);
      r := Evaluate(fuel, a, sc);
      ghost var st1 := State();
      assert (r, st1) == Eval.Evaluate(fuel, a, sc, st0);
      if r.Ok? {
        assert goal == Eval.Evaluate(fuel, b, sc, st1);
        r := Evaluate(fuel, b, sc);
      } else {
        assert goal == (r, st1);
      }
    }

    method EvalBlock(fuel: nat, b: Expr, sc: nat) returns (r: Result<Value>)
      requires Valid() && sc < |frames|
      modifies this
      ensures (r, State()) == Eval.EvalBlock(fuel, b, sc, old(State()))
      decreases fuel, 4
    {
      ghost var st0 := State();
      var n := NewScope(sc);
      assert Eval.EvalBlock(fuel, b, sc, st0) == Eval.Evaluate(fuel, b, n, State());
      r := Evaluate(fuel, b, n);
    }

    method EvalIf(fuel: nat, c: Expr, t: Expr, f: Expr, sc: nat) returns (r: Result<Value>)
      requires Valid() && sc < |frames|
      modifies this
      ensures (r, State()) == Eval.EvalIf(fuel, c, t, f, sc, old(State()))
      decreases fuel, 4
    {
      ghost var st0 := State();
      ghost var goal := Eval.EvalIf(fuel, c, t, f, sc, st0);
      var n := NewScope(sc);
      ghost var st1 := State();
      var tc := GetType(c, frames, n, functionTypes);
      assert tc == Eval.TypeOf(c, n, st1);
      if tc.Err? {
        assert goal == (Err(tc.error), st1);
        return Err(tc.error);
      }
      if !TypeEq(tc.value, BoolType) {
        assert goal == (Err(TypeError), st1);
        return Err(TypeError);
      }
      var rc := Evaluate(fuel, c, n);
      ghost var st2 := State();
      assert (rc, st2) == Eval.Evaluate(fuel, c, n, st1);
      if rc.Err? {
        assert goal == (rc, st2);
        return rc;
      }
      if Truthy(rc.value) {
        assert goal == Eval.Evaluate(fuel, t, n, st2);
        r := Evaluate(fuel, t, n);
      } else {
        assert goal == Eval.Evaluate(fuel, f, n, st2);
        r := Evaluate(fuel, f, n);
      }
    }

    /** `eval_while`: one child scope for every iteration, `result` updated
        by each body run. Each iteration costs one unit of fuel. */
    method EvalWhile(fuel: nat, c: Expr, b: Expr, sc: nat) returns (r: Result<Value>)
      requires Valid() && sc < |frames|
      modifies this
      ensures (r, State()) == Eval.EvalWhile(fuel, c, b, sc, old(State()))
      decreases fuel, 4
    {
      ghost var st0 := State();
      ghost var goal := Eval.EvalWhile(fuel, c, b, sc, st0);
      var tc := GetType(c, frames, sc, functionTypes);
      assert tc == Eval.TypeOf(c, sc, st0);
      if tc.Err? {
        assert goal == (Err(tc.error), st0);
        return Err(tc.error);
      }
      if !TypeEq(tc.value, BoolType) {
        assert goal == (Err(TypeError), st0);
        return Err(TypeError);
      }
      var ws := NewScope(sc);
      assert goal == Eval.WhileLoop(fuel, c, b, ws, State(), NoneValue);
      r := WhileLoop(fuel, c, b, ws);
    }

    /** The loop of `eval_while` in its scope ws: evaluate the condition,
        stop when it is falsy, otherwise run the body and keep its value. */
    method WhileLoop(fuel: nat, c: Expr, b: Expr, ws: nat) returns (r: Result<Value>)
      requires Valid() && ws < |frames|
      modifies this
      ensures (r, State()) == Eval.WhileLoop(fuel, c, b, ws, old(State()), NoneValue)
      decreases fuel, 3
    {
      ghost var goal := Eval.WhileLoop(fuel, c, b, ws, State(), NoneValue);
      var result := NoneValue;
      var f: nat := fuel;
      while true
        invariant Valid() && ws < |frames| && f <= fuel
        invariant Eval.WhileLoop(f, c, b, ws, State(), result) == goal
        decreases f
      {
        if f == 0 {
          return Err(OutOfFuel);
        }
        var done, rr := WhileRound(f, c, b, ws, result);
        if done {
          return rr;
        }
        result := rr.value;
        f := f - 1;
      }
    }

    /** One round of that loop: the test and, when it holds, the body.
        `done` is true when the loop ends in this round with outcome `r`;
        otherwise `r` holds the body's value and the loop goes on. */
    method WhileRound(f: nat, c: Expr, b: Expr, ws: nat, result: Value) returns (done: bool, r: Result<Value>)
      requires Valid() && ws < |frames| && f > 0
      modifies this
      ensures Valid() && ws < |frames|
      ensures done ==> (r, State()) == Eval.WhileLoop(f, c, b, ws, old(State()), result)
      ensures !done ==> r.Ok? && Eval.WhileLoop(f, c, b, ws, old(State()), result)
                                 == Eval.WhileLoop(f - 1, c, b, ws, State(), r.value)
      decreases f, 2
    {
      var go, rc := WhileTest(f, c, b, ws, result);
      if !go {
        return true, rc;
      }
      var more, rb := WhileRun(f - 1, c, b, ws);
      return !more, rb;
    }

    /** The test at the head of that loop: `go` is false when the loop ends
        here, with its outcome in `r`. */
    method WhileTest(f: nat, c: Expr, b: Expr, ws: nat, result: Value) returns (go: bool, r: Result<Value>)
      requires Valid() && ws < |frames| && f > 0
      modifies this
      ensures Valid() && ws < |frames|
      ensures !go ==> (r, State()) == Eval.WhileLoop(f, c, b, ws, old(State()), result)
      ensures go ==> Eval.WhileLoop(f, c, b, ws, old(State()), result)
                     == Eval.WhileBody(f - 1, c, b, ws, State())
      decreases f, 1
    {
      ghost var sti := State();
      var rc := Evaluate(f - 1, c, ws);
      ghost var stc := State();
      assert (rc, stc) == Eval.Evaluate(f - 1, c, ws, sti);
      go := rc.Ok? && Truthy(rc.value);
      r := if rc.Err? then rc else Ok(result);
      assert Eval.WhileLoop(f, c, b, ws, sti, result)
             == if go then Eval.WhileBody(f - 1, c, b, ws, stc) else (r, stc);
    }

    /** The body run of that loop: `more` is false when the body failed,
        and otherwise `r` holds its value. */
    method WhileRun(f: nat, c: Expr, b: Expr, ws: nat) returns (more: bool, r: Result<Value>)
      requires Valid() && ws < |frames|
      modifies this
      ensures Valid() && ws < |frames|
      ensures !more ==> (r, State()) == Eval.WhileBody(f, c, b, ws, old(State()))
      ensures more ==> r.Ok? && Eval.WhileBody(f, c, b, ws, old(State()))
                               == Eval.WhileLoop(f, c, b, ws, State(), r.value)
      decreases f, 2
    {
      ghost var sti := State();
      r := Evaluate(f, b, ws);
      ghost var stb := State();
      assert (r, stb) == Eval.Evaluate(f, b, ws, sti);
      more := r.Ok?;
      assert Eval.WhileBody(f, c, b, ws, sti)
             == if more then Eval.WhileLoop(f, c, b, ws, stb, r.value) else (r, stb);
    }

    method EvalBinop(fuel: nat, l: Expr, op: Op, rr: Expr, sc: nat) returns (r: Result<Value>)
      requires Valid() && sc < |frames|
      modifies this
      ensures (r, State()) == Eval.EvalBinop(fuel, l, op, rr, sc, old(State()))
      decreases fuel, 4
    {
      ghost var st0 := State();
      ghost var goal := Eval.EvalBinop(fuel, l, op, rr, sc, st0);
      var chk := Eval.BinopCheck(l, op, rr, sc, State());
      if chk.Err? {
        return Err(chk.error);
      }
      var v1 := Evaluate(fuel, l, sc);
      ghost var st1 := State();
      assert (v1, st1) == Eval.Evaluate(fuel, l, sc, st0);
      if v1.Err? {
        assert goal == (v1, st1);
        return v1;
      }
      var v2 := Evaluate(fuel, rr, sc);
      ghost var st2 := State();
      assert (v2, st2) == Eval.Evaluate(fuel, rr, sc, st1);
      if v2.Err? {
        assert goal == (v2, st2);
        return v2;
      }
      r := ApplyOp(v1.value, op, v2.value);
      assert goal == (r, st2);
    }

    method EvalUminus(fuel: nat, o: Expr, sc: nat) returns (r: Result<Value>)
      requires Valid() && sc < |frames|
      modifies this
      ensures (r, State()) == Eval.EvalUminus(fuel, o, sc, old(State()))
      decreases fuel, 4
    {
      ghost var st0 := State();
      ghost var goal := Eval.EvalUminus(fuel, o, sc, st0);
      var t := GetType(o, frames, sc, functionTypes);
      assert t == Eval.TypeOf(o, sc, st0);
      if t.Err? {
        assert goal == (Err(t.error), st0);
        return Err(t.error);
      }
      if !AreNumbers(t.value, IntType) {
        assert goal == (Err(TypeError), st0);
        return Err(TypeError);
      }
      var v := Evaluate(fuel, o, sc);
      ghost var st1 := State();
      assert (v, st1) == Eval.Evaluate(fuel, o, sc, st0);
      if v.Err? {
        assert goal == (v, st1);
        return v;
      }
      r := Negate(v.value);
      assert goal == (r, st1);
    }

    method EvalNot(fuel: nat, o: Expr, sc: nat) returns (r: Result<Value>)
      requires Valid() && sc < |frames|
      modifies this
      ensures (r, State()) == Eval.EvalNot(fuel, o, sc, old(State()))
      decreases fuel, 4
    {
      ghost var st0 := State();
      ghost var goal := Eval.EvalNot(fuel, o, sc, st0);
      var v := Evaluate(fuel, o, sc);
      ghost var st1 := State();
      assert (v, st1) == Eval.Evaluate(fuel, o, sc, st0);
      if v.Err? {
        assert goal == (v, st1);
        return v;
      }
      r := Ok(Bool(!Truthy(v.value)));
      assert goal == (r, st1);
    }

    /** `eval_print`: the console line becomes an append to `output`. */
    method EvalPrint(fuel: nat, o: Expr, sc: nat) returns (r: Result<Value>)
      requires Valid() && sc < |frames|
      modifies this
      ensures (r, State()) == Eval.EvalPrint(fuel, o, sc, old(State()))
      decreases fuel, 4
    {
      ghost var st0 := State();
      ghost var goal := Eval.EvalPrint(fuel, o, sc, st0);
      r := Evaluate(fuel, o, sc);
      ghost var st1 := State();
      assert (r, st1) == Eval.Evaluate(fuel, o, sc, st0);
      if r.Ok? {
        output := output + [r.value];
        assert goal == (r, st1.(output := st1.output + [r.value]));
      } else {
        assert goal == (r, st1);
      }
    }

    method EvalConvert(fuel: nat, t: Type, o: Expr, sc: nat) returns (r: Result<Value>)
      requires Valid() && sc < |frames|
      modifies this
      ensures (r, State()) == Eval.EvalConvert(fuel, t, o, sc, old(State()))
      decreases fuel, 4
    {
      ghost var st0 := State();
      ghost var goal := Eval.EvalConvert(fuel, t, o, sc, st0);
      var v := Evaluate(fuel, o, sc);
      ghost var st1 := State();
      assert (v, st1) == Eval.Evaluate(fuel, o, sc, st0);
      if v.Err? {
        assert goal == (v, st1);
        return v;
      }
      r := ConvertTo(t, v.value);
      assert goal == (r, st1);
    }

    /** `eval_call`: the first loop evaluates and converts the arguments in
        the invocation scope, the second binds them, then the body runs. */
    method EvalCall(fuel: nat, f: string, args: seq<Expr>, sc: nat) returns (r: Result<Value>)
      requires Valid() && sc < |frames|
      modifies this
      ensures (r, State()) == Eval.EvalCall(fuel, f, args, sc, old(State()))
      decreases fuel, 4
    {
      ghost var st0 := State();
      ghost var goal := Eval.EvalCall(fuel, f, args, sc, st0);
      if f !in functions {
        assert goal == (Err(NameError), st0);
        return Err(NameError);
      }
      var params := arguments[f];
      if |args| != |params| {
        assert goal == (Err(ValueError), st0);
        return Err(ValueError);
      }
      var body := functions[f];
      var fs := functionScopes[f];
      var parent := if sc == 0 then fs else sc;
      var n := NewScope(parent);
      ghost var st1 := State();
      var ra := EvalArgs(fuel, fs, args, params, n);
      if ra.Err? {
        assert goal == (Err(ra.error), State());
        return Err(ra.error);
      }
      ghost var st2 := State();
      var rb := BindParams(fuel, params, ra.value, n);
      if rb.Err? {
        assert goal == (Err(rb.error), State());
        return Err(rb.error);
      }
      ghost var st3 := State();
      assert goal == Eval.Evaluate(fuel, body, n, st3);
      r := Evaluate(fuel, body, n);
    }

    /** `p_statement_def`: registers return type, argument list and
        defining scope, declares each parameter there with None, and
        registers the body last. */
    method Define(name: string, params: seq<(Type, string)>, ret: Type, body: Expr) returns (r: Result<()>)
      requires Valid()
      modifies this
      ensures (r, State()) == Registry.Define(old(State()), name, params, ret, body)
    {
      ghost var st0 := State();
      ghost var goal := Registry.Define(st0, name, params, ret, body);
      if name in functions {
        assert goal == (Err(NameError), st0);
        return Err(NameError);
      }
      var fs := Prepare(name, ret);
      ghost var st1 := State();
      var d := DeclareParams(name, params, fs);
      if d.Err? {
        assert goal == (d, State());
        return d;
      }
      ghost var st2 := State();
      assert (d, st2) == Registry.DeclareParams(name, params, 0, fs, st1);
      functions := functions[name := body];
      r := Ok(());
      assert goal == (r, st2.(functions := st2.functions[name := body]));
    }
  
    /** The argument loop of `eval_call`: each argument is evaluated in the
        new scope n and converted to the declared class of its parameter,
        which is looked up in the defining scope fs. */
    method EvalArgs(fuel: nat, fs: nat, args: seq<Expr>, params: seq<string>, n: nat) returns (r: Result<seq<Value>>)
      requires Valid() && fs < |frames| && n < |frames| && |args| == |params|
      modifies this
      ensures Valid() && n < |frames|
      ensures (r, State()) == Eval.EvalArgs(fuel, fs, args, params, 0, n, old(State()), [])
      decreases fuel, 3
    {
      ghost var argsDone := Eval.EvalArgs(fuel, fs, args, params, 0, n, State(), []);
      var vals: seq<Value> := [];
      var i := 0;
      while i < |args|
        invariant 0 <= i <= |args| && |vals| == i
        invariant Valid() && n < |frames| && fs < |frames|
        invariant Eval.EvalArgs(fuel, fs, args, params, i, n, State(), vals) == argsDone
        decreases |args| - i
      {
        ghost var sti := State();
        var pt := LookupType(frames, fs, params[i]);
        if pt.Err? {
          assert argsDone == (Err(pt.error), sti);
          return Err(pt.error);
        }
        var v := Evaluate(fuel, args[i], n);
        ghost var stv := State();
        assert (v, stv) == Eval.Evaluate(fuel, args[i], n, sti);
        if v.Err? {
          assert argsDone == (Err(v.error), stv);
          return Err(v.error);
        }
        var w := if TypeEq(ValueType(v.value), pt.value) then v else ConvertTo(pt.value, v.value);
        if w.Err? {
          assert argsDone == (Err(w.error), stv);
          return Err(w.error);
        }
        assert argsDone == Eval.EvalArgs(fuel, fs, args, params, i + 1, n, stv, vals + [w.value]);
        vals := vals + [w.value];
        i := i + 1;
      }
      assert argsDone == (Ok(vals), State());
      r := Ok(vals);
    }

    /** The binding loop of `eval_call`: a parameter already visible from
        n is assigned in n itself (its `values` gain the entry, whichever
        scope declared the name), any other is declared in n with the class
        of its value. */
    method BindParams(fuel: nat, params: seq<string>, vals: seq<Value>, n: nat) returns (r: Result<()>)
      requires Valid() && n < |frames| && |params| == |vals|
      modifies this
      ensures Valid() && n < |frames|
      ensures (r, State()) == Eval.BindParams(fuel, params, vals, 0, n, old(State()))
      decreases fuel, 3, 1
    {
      ghost var bound := Eval.BindParams(fuel, params, vals, 0, n, State());
      var i := 0;
      while i < |params|
        invariant 0 <= i <= |params|
        invariant Valid() && n < |frames|
        invariant Eval.BindParams(fuel, params, vals, i, n, State()) == bound
        decreases |params| - i
      {
        var b := BindParam(fuel, params[i], vals[i], n);
        ghost var stb := State();
        if b.Err? {
          assert bound == (Err(b.error), stb);
          return Err(b.error);
        }
        assert bound == Eval.BindParams(fuel, params, vals, i + 1, n, stb);
        i := i + 1;
      }
      assert bound == (Ok(()), State());
      r := Ok(());
    }

    /** One parameter of the binding loop: assigned in n when the name is
        visible from n, declared in n with its value's class otherwise. */
    method BindParam(fuel: nat, x: string, v: Value, n: nat) returns (r: Result<Value>)
      requires Valid() && n < |frames|
      modifies this
      ensures Valid() && n < |frames|
      ensures (r, State()) == if IsNameDeclared(old(frames), n, x) then Eval.ScopeAssign(fuel, n, x, Lit(v), old(State()))
                              else Eval.ScopeDeclare(fuel, n, x, ValueType(v), Lit(v), old(State()))
      decreases fuel, 3, 0
    {
      if IsNameDeclared(frames, n, x) {
        r := Assign(fuel, n, x, Lit(v));
      } else {
        r := Declare(fuel, n, x, ValueType(v), Lit(v));
      }
    }

    /** The registrations of `p_statement_def` before its loop: the return
        type, an empty argument list, and a fresh defining scope under
        `global_scope`, whose index is returned. */
    method Prepare(name: string, ret: Type) returns (fs: nat)
      requires Valid()
      modifies this
      ensures State() == Registry.Prepare(old(State()), name, ret) && fs == |old(frames)|
    {
      functionTypes := functionTypes[name := ret];
      arguments := arguments[name := []];
      fs := NewScope(0);
      functionScopes := functionScopes[name := fs];
    }

    /** The loop of `p_statement_def`: each parameter name is appended to
        the argument list and declared in the defining scope fs with None. */
    method DeclareParams(name: string, params: seq<(Type, string)>, fs: nat) returns (r: Result<()>)
      requires Valid() && fs < |frames| && name in arguments
      modifies this
      ensures (r, State()) == Registry.DeclareParams(name, params, 0, fs, old(State()))
    {
      ghost var loop := Registry.DeclareParams(name, params, 0, fs, State());
      for i := 0 to |params|
        invariant Valid() && fs < |frames| && name in arguments
        invariant Registry.DeclareParams(name, params, i, fs, State()) == loop
      {
        var (t, x) := params[i];
        arguments := arguments[name := arguments[name] + [x]];
        var d := DeclareValue(frames, fs, x, t, NoneValue);
        if d.Err? {
          return Err(d.error);
        }
        frames := d.value;
      }
      r := Ok(());
    }
  }
}

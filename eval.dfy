/** The evaluator of repl.py as functions over an explicit interpreter
    state: `evaluate` and the `eval_*` functions it dispatches to, together
    with `Scope.declare` and `Scope.assign`, which evaluate the expression
    they store. Each returns the result and the state after the call. A
    `fuel` bound stands in for non-termination: each node evaluated and each
    loop iteration costs one unit. This is the reference the imperative
    `Interpreter` class is proved against. */
module Eval {
  import opened Ast
  import opened PyOps
  import opened Scopes
  import opened Typer

  /** The interpreter's global state: the scope arena (frame 0 is
      `global_scope`), the four function registries of repl.py:160-163, and
      the values `print` wrote, in order. A function's defining scope is the
      index of its frame. */
  datatype State = State(
    frames: seq<Frame>,
    functions: map<string, Expr>,
    functionTypes: map<string, Type>,
    arguments: map<string, seq<string>>,
    functionScopes: map<string, nat>,
    output: seq<Value>)

  predicate Valid(st: State)
  {
    && WellLinked(st.frames)
    && st.functions.Keys <= st.functionTypes.Keys
    && st.functions.Keys <= st.arguments.Keys
    && st.functions.Keys <= st.functionScopes.Keys
    && forall f | f in st.functionScopes :: st.functionScopes[f] < |st.frames|
  }

  /** The state at process start: only `global_scope`, no functions. */
  function Initial(): (st: State)
    ensures Valid(st)
  {
    State([Frame(map[], map[], None)], map[], map[], map[], map[], [])
  }

  /** What evaluation in scope `sc` may do to the state: add frames, append
      output, and change the dicts of frame `sc`; every other existing frame,
      the parent link of `sc` and the registries stay as they were, and no
      type recorded in `sc` is removed or replaced. With
      `sc` at or past the end of the arena, no existing frame changes. */
  predicate Evolves(s1: State, s2: State, sc: nat)
  {
    && |s1.frames| <= |s2.frames|
    && s2.functions == s1.functions
    && s2.functionTypes == s1.functionTypes
    && s2.arguments == s1.arguments
    && s2.functionScopes == s1.functionScopes
    && s1.output <= s2.output
    && (sc < |s1.frames| ==> s2.frames[sc].parent == s1.frames[sc].parent)
    && (sc < |s1.frames| ==> TypesKept(s1.frames[sc].types, s2.frames[sc].types))
    && forall i | 0 <= i < |s1.frames| && i != sc :: s2.frames[i] == s1.frames[i]
  }

  /** Every name of m1 keeps its type in m2. */
  predicate TypesKept(m1: map<string, Type>, m2: map<string, Type>)
  {
    forall k | k in m1 :: k in m2 && m2[k] == m1[k]
  }

  /** `Scope(parent=p)`: the new frame gets index |st.frames|. */
  function PushScope(st: State, p: nat): (r: State)
    requires Valid(st) && p < |st.frames|
    ensures Valid(r) && Evolves(st, r, |st.frames|)
    ensures |r.frames| == |st.frames| + 1 && r.frames[|st.frames|] == NewFrame(p)
  {
    PushWellLinked(st.frames, p);
    st.(frames := st.frames + [NewFrame(p)])
  }

  function TypeOf(e: Expr, sc: nat, st: State): Result<Type>
    requires Valid(st) && sc < |st.frames|
  {
    GetType(e, st.frames, sc, st.functionTypes)
  }

  /** `evaluate(expression, scope)` (repl.py:562-566): a bare value is its
      own result; a node goes to its `eval_*` function. */
  function Evaluate(fuel: nat, e: Expr, sc: nat, st: State): (r: (Result<Value>, State))
    requires Valid(st) && sc < |st.frames|
    ensures Valid(r.1) && Evolves(st, r.1, sc)
    decreases fuel, 0
  {
    if fuel == 0 then (Err(OutOfFuel), st)
    else match e
      case Lit(v) => (Ok(v), st)
      case Name(x) => (LookupValue(st.frames, sc, x), st)
      case Binop(l, op, r) => EvalBinop(fuel - 1, l, op, r, sc, st)
      case Uminus(o) => EvalUminus(fuel - 1, o, sc, st)
      case Not(o) => EvalNot(fuel - 1, o, sc, st)
      case Print(o) => EvalPrint(fuel - 1, o, sc, st)
      case Convert(t, _, o) => EvalConvert(fuel - 1, t, o, sc, st)
      case Assign(x, rhs) => EvalAssign(fuel - 1, x, rhs, sc, st)
      case Declare(t, x, rhs) => EvalDeclare(fuel - 1, t, x, rhs, sc, st)
      case Sequence(a, b) => EvalSequence(fuel - 1, a, b, sc, st)
      case Block(b) => EvalBlock(fuel - 1, b, sc, st)
      case If(c, t, f) => EvalIf(fuel - 1, c, t, f, sc, st)
      case While(c, b) => EvalWhile(fuel - 1, c, b, sc, st)
      case Call(f, args) => EvalCall(fuel - 1, f, args, sc, st)
  }

  /** One step of `evaluate` on a node that loops or calls. */
  lemma EvaluateRepeatedNode(fuel: nat, e: Expr, sc: nat, st: State)
    requires Valid(st) && sc < |st.frames| && fuel > 0
    ensures e.While? ==> Evaluate(fuel, e, sc, st) == EvalWhile(fuel - 1, e.cond, e.body, sc, st)
    ensures e.Call? ==> Evaluate(fuel, e, sc, st) == EvalCall(fuel - 1, e.fn, e.args, sc, st)
  {
  }

  /** One step of `evaluate` on an operator node. */
  lemma EvaluateOperatorNode(fuel: nat, e: Expr, sc: nat, st: State)
    requires Valid(st) && sc < |st.frames| && fuel > 0
    ensures e.Binop? ==> Evaluate(fuel, e, sc, st) == EvalBinop(fuel - 1, e.left, e.op, e.right, sc, st)
    ensures e.Uminus? ==> Evaluate(fuel, e, sc, st) == EvalUminus(fuel - 1, e.operand, sc, st)
    ensures e.Not? ==> Evaluate(fuel, e, sc, st) == EvalNot(fuel - 1, e.operand, sc, st)
    ensures e.Print? ==> Evaluate(fuel, e, sc, st) == EvalPrint(fuel - 1, e.operand, sc, st)
    ensures e.Convert? ==> Evaluate(fuel, e, sc, st) == EvalConvert(fuel - 1, e.target, e.operand, sc, st)
  {
  }

  /** `Scope.declare` (repl.py:142-147): RuntimeError when the name is in
      the receiver's own `types`; otherwise the type is recorded first, the
      initialiser evaluated in the receiver, and its value stored. */
  function ScopeDeclare(fuel: nat, sc: nat, x: string, t: Type, e: Expr, st: State): (r: (Result<Value>, State))
    requires Valid(st) && sc < |st.frames|
    ensures Valid(r.1) && Evolves(st, r.1, sc)
    decreases fuel, 1
  {
    if x in st.frames[sc].types then (Err(RuntimeError), st)
    else
      var st1 := st.(frames := SetType(st.frames, sc, x, t));
      var (res, st2) := Evaluate(fuel, e, sc, st1);
      match res
      case Err(_) => (res, st2)
      case Ok(v) => (Ok(v), st2.(frames := SetValue(st2.frames, sc, x, v)))
  }

  /** `Scope.assign` (repl.py:149-155): LookupError when the name is not
      declared anywhere on the chain, TypeError when the expression's type
      differs from the name's; otherwise the value is stored in the
      receiver's own `values`, whichever frame declared the name. */
  function ScopeAssign(fuel: nat, sc: nat, x: string, e: Expr, st: State): (r: (Result<Value>, State))
    requires Valid(st) && sc < |st.frames|
    ensures Valid(r.1) && Evolves(st, r.1, sc)
    decreases fuel, 1
  {
    match AssignCheck(sc, x, e, st)
    case Err(err) => (Err(err), st)
    case Ok(_) =>
      var (res, st2) := Evaluate(fuel, e, sc, st);
      match res
      case Err(_) => (res, st2)
      case Ok(v) => (Ok(v), st2.(frames := SetValue(st2.frames, sc, x, v)))
  }

  /** What `Scope.assign` checks before it evaluates the right-hand side:
      the name is visible, the expression has a type, and that type equals
      the name's. */
  function AssignCheck(sc: nat, x: string, e: Expr, st: State): Result<()>
    requires Valid(st) && sc < |st.frames|
  {
    if !IsNameDeclared(st.frames, sc, x) then Err(LookupError)
    else match TypeOf(e, sc, st)
      case Err(err) => Err(err)
      case Ok(te) =>
        match LookupType(st.frames, sc, x)
        case Err(err) => Err(err)
        case Ok(tx) => if TypeEq(te, tx) then Ok(()) else Err(TypeError)
  }

  /** `eval_assign` (repl.py:249-254) */
  function EvalAssign(fuel: nat, x: string, e: Expr, sc: nat, st: State): (r: (Result<Value>, State))
    requires Valid(st) && sc < |st.frames|
    ensures Valid(r.1) && Evolves(st, r.1, sc)
    decreases fuel, 3
  {
    match TypeOf(e, sc, st)
    case Err(err) => (Err(err), st)
    case Ok(te) =>
      match LookupType(st.frames, sc, x)
      case Err(err) => (Err(err), st)
      case Ok(tx) =>
        if !TypeEq(tx, te) then (Err(TypeError), st)
        else ScopeAssign(fuel, sc, x, e, st)
  }

  /** `eval_declare` (repl.py:270-274) */
  function EvalDeclare(fuel: nat, t: Type, x: string, e: Expr, sc: nat, st: State): (r: (Result<Value>, State))
    requires Valid(st) && sc < |st.frames|
    ensures Valid(r.1) && Evolves(st, r.1, sc)
    decreases fuel, 3
  {
    match TypeOf(e, sc, st)
    case Err(err) => (Err(err), st)
    case Ok(te) =>
      if !TypeEq(te, t) then (Err(TypeError), st)
      else ScopeDeclare(fuel, sc, x, t, e, st)
  }

  /** `eval_sequence` (repl.py:362-364) */
  function EvalSequence(fuel: nat, a: Expr, b: Expr, sc: nat, st: State): (r: (Result<Value>, State))
    requires Valid(st) && sc < |st.frames|
    ensures Valid(r.1) && Evolves(st, r.1, sc)
    decreases fuel, 3
  {
    var (ra, st1) := Evaluate(fuel, a, sc, st);
    if ra.Err? then (ra, st1) else Evaluate(fuel, b, sc, st1)
  }

  /** `eval_block` (repl.py:372-374): the body runs in a new child scope. */
  function EvalBlock(fuel: nat, b: Expr, sc: nat, st: State): (r: (Result<Value>, State))
    requires Valid(st) && sc < |st.frames|
    ensures Valid(r.1) && Evolves(st, r.1, |st.frames|)
    decreases fuel, 3
  {
    Evaluate(fuel, b, |st.frames|, PushScope(st, sc))
  }

  /** `eval_if` (repl.py:394-402): a child scope is made first; the
      condition must be typed bool in it; one branch runs in that scope. */
  function EvalIf(fuel: nat, c: Expr, t: Expr, f: Expr, sc: nat, st: State): (r: (Result<Value>, State))
    requires Valid(st) && sc < |st.frames|
    ensures Valid(r.1) && Evolves(st, r.1, |st.frames|)
    decreases fuel, 3
  {
    var n := |st.frames|;
    var st1 := PushScope(st, sc);
    match TypeOf(c, n, st1)
    case Err(err) => (Err(err), st1)
    case Ok(tc) =>
      if !TypeEq(tc, BoolType) then (Err(TypeError), st1)
      else
        var (rc, st2) := Evaluate(fuel, c, n, st1);
        match rc
        case Err(_) => (rc, st2)
        case Ok(vc) => if Truthy(vc) then Evaluate(fuel, t, n, st2) else Evaluate(fuel, f, n, st2)
  }

  /** `eval_while` (repl.py:416-424): the condition is type-checked in the
      enclosing scope, then one child scope serves every iteration. */
  function EvalWhile(fuel: nat, c: Expr, b: Expr, sc: nat, st: State): (r: (Result<Value>, State))
    requires Valid(st) && sc < |st.frames|
    ensures Valid(r.1) && Evolves(st, r.1, |st.frames|)
    decreases fuel, 3
  {
    match TypeOf(c, sc, st)
    case Err(err) => (Err(err), st)
    case Ok(tc) =>
      if !TypeEq(tc, BoolType) then (Err(TypeError), st)
      else WhileLoop(fuel, c, b, |st.frames|, PushScope(st, sc), NoneValue)
  }

  /** The loop of `eval_while` from a given iteration on: `result` holds the
      value of the last body run (None before the first). The condition is
      evaluated in the loop scope ws; a falsy one ends the loop. */
  function WhileLoop(fuel: nat, c: Expr, b: Expr, ws: nat, st: State, result: Value): (r: (Result<Value>, State))
    requires Valid(st) && ws < |st.frames|
    ensures Valid(r.1) && Evolves(st, r.1, ws)
    decreases fuel, 2
  {
    if fuel == 0 then (Err(OutOfFuel), st)
    else
      var (rc, st1) := Evaluate(fuel - 1, c, ws, st);
      match rc
      case Err(_) => (rc, st1)
      case Ok(vc) =>
        if !Truthy(vc) then (Ok(result), st1)
        else WhileBody(fuel - 1, c, b, ws, st1)
  }

  /** The body run of one iteration, in the same scope ws; its value is the
      loop's result so far. */
  function WhileBody(fuel: nat, c: Expr, b: Expr, ws: nat, st: State): (r: (Result<Value>, State))
    requires Valid(st) && ws < |st.frames|
    ensures Valid(r.1) && Evolves(st, r.1, ws)
    decreases fuel, 3
  {
    var (rb, st2) := Evaluate(fuel, b, ws, st);
    match rb
    case Err(_) => (rb, st2)
    case Ok(vb) => WhileLoop(fuel, c, b, ws, st2, vb)
  }

  /** `eval_binop` (repl.py:480-506): both operand types are computed and
      checked before either operand is evaluated. */
  function EvalBinop(fuel: nat, l: Expr, op: Op, rr: Expr, sc: nat, st: State): (r: (Result<Value>, State))
    requires Valid(st) && sc < |st.frames|
    ensures Valid(r.1) && Evolves(st, r.1, sc)
    decreases fuel, 3
  {
    match BinopCheck(l, op, rr, sc, st)
    case Err(err) => (Err(err), st)
    case Ok(_) =>
      var (r1, st1) := Evaluate(fuel, l, sc, st);
      match r1
      case Err(_) => (r1, st1)
      case Ok(v1) =>
        var (r2, st2) := Evaluate(fuel, rr, sc, st1);
        match r2
        case Err(_) => (r2, st2)
        case Ok(v2) => (ApplyOp(v1, op, v2), st2)
  }

  /** What `eval_binop` checks before it evaluates anything: the types of
      both operands and `typecheck_binop` on them. */
  function BinopCheck(l: Expr, op: Op, rr: Expr, sc: nat, st: State): Result<()>
    requires Valid(st) && sc < |st.frames|
  {
    match TypeOf(l, sc, st)
    case Err(err) => Err(err)
    case Ok(t1) =>
      match TypeOf(rr, sc, st)
      case Err(err) => Err(err)
      case Ok(t2) => if TypecheckBinop(t1, t2, op) then Ok(()) else Err(TypeError)
  }

  /** `eval_uminus` (repl.py:514-518): `are_numbers(t)` with its default
      second argument, the class int. */
  function EvalUminus(fuel: nat, o: Expr, sc: nat, st: State): (r: (Result<Value>, State))
    requires Valid(st) && sc < |st.frames|
    ensures Valid(r.1) && Evolves(st, r.1, sc)
    decreases fuel, 3
  {
    match TypeOf(o, sc, st)
    case Err(err) => (Err(err), st)
    case Ok(t) =>
      if !AreNumbers(t, IntType) then (Err(TypeError), st)
      else
        var (rv, st1) := Evaluate(fuel, o, sc, st);
        match rv
        case Err(_) => (rv, st1)
        case Ok(v) => (Negate(v), st1)
  }

  /** `eval_not` (repl.py:229-230) */
  function EvalNot(fuel: nat, o: Expr, sc: nat, st: State): (r: (Result<Value>, State))
    requires Valid(st) && sc < |st.frames|
    ensures Valid(r.1) && Evolves(st, r.1, sc)
    decreases fuel, 3
  {
    var (rv, st1) := Evaluate(fuel, o, sc, st);
    match rv
    case Err(_) => (rv, st1)
    case Ok(v) => (Ok(Bool(!Truthy(v))), st1)
  }

  /** `eval_print` (repl.py:238-241): the printed value goes to `output`. */
  function EvalPrint(fuel: nat, o: Expr, sc: nat, st: State): (r: (Result<Value>, State))
    requires Valid(st) && sc < |st.frames|
    ensures Valid(r.1) && Evolves(st, r.1, sc)
    decreases fuel, 3
  {
    var (rv, st1) := Evaluate(fuel, o, sc, st);
    match rv
    case Err(_) => (rv, st1)
    case Ok(v) => (Ok(v), st1.(output := st1.output + [v]))
  }

  /** `eval_convert` (repl.py:215-221) */
  function EvalConvert(fuel: nat, t: Type, o: Expr, sc: nat, st: State): (r: (Result<Value>, State))
    requires Valid(st) && sc < |st.frames|
    ensures Valid(r.1) && Evolves(st, r.1, sc)
    decreases fuel, 3
  {
    var (rv, st1) := Evaluate(fuel, o, sc, st);
    match rv
    case Err(_) => (rv, st1)
    case Ok(v) => (ConvertTo(t, v), st1)
  }

  /** `eval_call` (repl.py:319-344). The invocation scope's parent is the
      function's defining scope when the caller is `global_scope`, and the
      caller's scope otherwise; arguments are evaluated in the invocation
      scope, converted to the parameter classes, bound, and the body runs
      there. */
  function EvalCall(fuel: nat, f: string, args: seq<Expr>, sc: nat, st: State): (r: (Result<Value>, State))
    requires Valid(st) && sc < |st.frames|
    ensures Valid(r.1) && Evolves(st, r.1, |st.frames|)
    decreases fuel, 3
  {
    if f !in st.functions then (Err(NameError), st)
    else if |args| != |st.arguments[f]| then (Err(ValueError), st)
    else
      var params := st.arguments[f];
      var parent := if sc == 0 then st.functionScopes[f] else sc;
      var n := |st.frames|;
      var st1 := PushScope(st, parent);
      var (ra, st2) := EvalArgs(fuel, st.functionScopes[f], args, params, 0, n, st1, []);
      match ra
      case Err(err) => (Err(err), st2)
      case Ok(vals) =>
        var (rb, st3) := BindParams(fuel, params, vals, 0, n, st2);
        match rb
        case Err(err) => (Err(err), st3)
        case Ok(_) => Evaluate(fuel, st.functions[f], n, st3)
  }

  /** The first loop of `eval_call` from argument i on (repl.py:330-337):
      the parameter's class is looked up in the defining scope, the argument
      evaluated in the invocation scope `n`, and converted when its class
      differs. `acc` holds the values of the arguments before i. */
  function EvalArgs(fuel: nat, fs: nat, args: seq<Expr>, params: seq<string>, i: nat, n: nat,
                    st: State, acc: seq<Value>): (r: (Result<seq<Value>>, State))
    requires Valid(st) && fs < |st.frames| && n < |st.frames|
    requires |args| == |params| && i <= |args| && |acc| == i
    ensures Valid(r.1) && Evolves(st, r.1, n)
    ensures r.0.Ok? ==> |r.0.value| == |args|
    decreases fuel, 2, |args| - i
  {
    if i == |args| then (Ok(acc), st)
    else match LookupType(st.frames, fs, params[i])
      case Err(err) => (Err(err), st)
      case Ok(pt) =>
        var (rv, st1) := Evaluate(fuel, args[i], n, st);
        match rv
        case Err(err) => (Err(err), st1)
        case Ok(v) =>
          var cv := if TypeEq(ValueType(v), pt) then Ok(v) else ConvertTo(pt, v);
          match cv
          case Err(err) => (Err(err), st1)
          case Ok(w) => EvalArgs(fuel, fs, args, params, i + 1, n, st1, acc + [w])
  }

  /** The second loop of `eval_call` from parameter i on (repl.py:339-343):
      `assign` when the name is visible on the invocation scope's chain,
      `declare` with the value's class otherwise. */
  function BindParams(fuel: nat, params: seq<string>, vals: seq<Value>, i: nat, n: nat, st: State): (r: (Result<()>, State))
    requires Valid(st) && n < |st.frames|
    requires |params| == |vals| && i <= |params|
    ensures Valid(r.1) && Evolves(st, r.1, n)
    decreases fuel, 2, |params| - i
  {
    if i == |params| then (Ok(()), st)
    else
      var (rb, st1) :=
        if IsNameDeclared(st.frames, n, params[i]) then ScopeAssign(fuel, n, params[i], Lit(vals[i]), st)
        else ScopeDeclare(fuel, n, params[i], ValueType(vals[i]), Lit(vals[i]), st);
      match rb
      case Err(err) => (Err(err), st1)
      case Ok(_) => BindParams(fuel, params, vals, i + 1, n, st1)
  }
}

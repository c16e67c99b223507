/** What the evaluator promises, proved about the reference semantics of
    module Eval: declaration and assignment rules, the checks that run
    before anything is evaluated, the edge cases of `if` and `while`, and
    what a function call can and cannot touch. */
module EvalFacts {
  import opened Ast
  import opened PyOps
  import opened Scopes
  import opened Typer
  import opened Eval

  // ----- declare -----

  /** `declare` with a literal initialiser behaves as the declaration of
      a bare value: the same RuntimeError on a name the frame has, the same
      frames otherwise, and the literal as the result. */
  lemma DeclareBareValue(fuel: nat, sc: nat, st: State, t: Type, x: string, v: Value)
    requires Valid(st) && sc < |st.frames| && fuel >= 1
    ensures var r := ScopeDeclare(fuel, sc, x, t, Lit(v), st);
            match DeclareValue(st.frames, sc, x, t, v)
            case Err(e) => r == (Err(e), st)
            case Ok(frames) => r == (Ok(v), st.(frames := frames))
  {
    if x !in st.frames[sc].types {
      var st1 := st.(frames := SetType(st.frames, sc, x, t));
      assert Evaluate(fuel, Lit(v), sc, st1) == (Ok(v), st1);
    }
  }

  /** A well-typed literal declaration of a name new to the receiver binds
      the name there, type and value, and changes nothing else. */
  lemma DeclareLiteral(fuel: nat, sc: nat, st: State, t: Type, x: string, v: Value)
    requires Valid(st) && sc < |st.frames| && fuel >= 2
    requires ValueType(v) == t && x !in st.frames[sc].types
    ensures Evaluate(fuel, Declare(t, x, Lit(v)), sc, st)
         == (Ok(v), st.(frames := SetValue(SetType(st.frames, sc, x, t), sc, x, v)))
  {
    DeclareBareValue(fuel - 1, sc, st, t, x, v);
    assert TypeEq(t, t);
  }

  /** A well-typed literal declaration of a name the receiver already
      holds raises RuntimeError and changes nothing. */
  lemma RedeclareFails(fuel: nat, sc: nat, st: State, t: Type, x: string, v: Value)
    requires Valid(st) && sc < |st.frames| && fuel >= 1
    requires ValueType(v) == t && x in st.frames[sc].types
    ensures Evaluate(fuel, Declare(t, x, Lit(v)), sc, st) == (Err(RuntimeError), st)
  {
    assert TypeEq(t, t);
    assert EvalDeclare(fuel - 1, t, x, Lit(v), sc, st) == (Err(RuntimeError), st);
  }

  /** A sequence whose first part succeeds goes on with the second part in
      the state the first one left. */
  lemma SequenceStep(fuel: nat, a: Expr, b: Expr, sc: nat, st: State)
    requires Valid(st) && sc < |st.frames| && fuel >= 1
    requires Evaluate(fuel - 1, a, sc, st).0.Ok?
    ensures Evaluate(fuel, Sequence(a, b), sc, st) == Evaluate(fuel - 1, b, sc, Evaluate(fuel - 1, a, sc, st).1)
  {
  }

  /** Declaring the same name twice in one scope: the first declaration
      succeeds and stays, the second raises RuntimeError. */
  lemma DeclareTwiceFails(fuel: nat, sc: nat, st: State, t: Type, x: string, v: Value, w: Value)
    requires Valid(st) && sc < |st.frames| && fuel >= 3
    requires ValueType(v) == t && ValueType(w) == t
    requires x !in st.frames[sc].types
    ensures var r := Evaluate(fuel, Sequence(Declare(t, x, Lit(v)), Declare(t, x, Lit(w))), sc, st);
            r.0 == Err(RuntimeError) && LookupValue(r.1.frames, sc, x) == Ok(v)
  {
    var d1 := Declare(t, x, Lit(v));
    DeclareLiteral(fuel - 1, sc, st, t, x, v);
    SequenceStep(fuel, d1, Declare(t, x, Lit(w)), sc, st);
    RedeclareFails(fuel - 1, sc, Evaluate(fuel - 1, d1, sc, st).1, t, x, w);
  }

  /** A name bound in an enclosing scope may be declared again in a block
      (shadowing); once the block is left the enclosing binding is what the
      enclosing scope sees, unchanged. */
  lemma BlockShadows(fuel: nat, sc: nat, st: State, t: Type, x: string, v: Value)
    requires Valid(st) && sc < |st.frames| && fuel >= 3
    requires ValueType(v) == t
    ensures var r := Evaluate(fuel, Block(Declare(t, x, Lit(v))), sc, st);
            && r.0 == Ok(v)
            && LookupType(r.1.frames, sc, x) == LookupType(st.frames, sc, x)
            && LookupValue(r.1.frames, sc, x) == LookupValue(st.frames, sc, x)
  {
    var st1 := PushScope(st, sc);
    DeclareLiteral(fuel - 1, |st.frames|, st1, t, x, v);
    var r := Evaluate(fuel, Block(Declare(t, x, Lit(v))), sc, st);
    assert r == EvalBlock(fuel - 1, Declare(t, x, Lit(v)), sc, st);
    LookupsReadOnlyChain(st.frames, r.1.frames, sc, x);
  }

  /** After a successful declaration the receiver resolves the name to the
      declared type and the value; the type is recorded before the
      initialiser runs, so it is the declared one even if the initialiser
      itself declared or assigned in the same scope. */
  lemma DeclareBinds(fuel: nat, sc: nat, st: State, t: Type, x: string, e: Expr)
    requires Valid(st) && sc < |st.frames|
    requires ScopeDeclare(fuel, sc, x, t, e, st).0.Ok?
    ensures var r := ScopeDeclare(fuel, sc, x, t, e, st);
            LookupType(r.1.frames, sc, x) == Ok(t) && LookupValue(r.1.frames, sc, x) == Ok(r.0.value)
  {
    var st1 := st.(frames := SetType(st.frames, sc, x, t));
    var st2 := Evaluate(fuel, e, sc, st1).1;
    assert TypesKept(st1.frames[sc].types, st2.frames[sc].types);
  }

  /** A declaration whose initialiser fails after the type check leaves the
      name half declared: its type is recorded in the scope, its value is
      not, and declaring it again is refused. */
  lemma FailedInitialiserLeavesTypeBehind(fuel: nat, sc: nat, st: State, x: string)
    requires Valid(st) && sc < |st.frames| && fuel >= 3
    requires x !in st.frames[sc].types && x !in st.frames[sc].values
    ensures var r := Evaluate(fuel, Declare(FloatType, x, Binop(Lit(Int(1)), Div, Lit(Int(0)))), sc, st);
            && r.0 == Err(ZeroDivisionError)
            && x in r.1.frames[sc].types && r.1.frames[sc].types[x] == FloatType
            && x !in r.1.frames[sc].values
            && ScopeDeclare(fuel, sc, x, FloatType, Lit(Float(2.0)), r.1).0 == Err(RuntimeError)
  {
    var e := Binop(Lit(Int(1)), Div, Lit(Int(0)));
    var st1 := st.(frames := SetType(st.frames, sc, x, FloatType));
    assert TypeOf(e, sc, st) == Ok(FloatType);
    assert Evaluate(fuel, Declare(FloatType, x, e), sc, st) == EvalDeclare(fuel - 1, FloatType, x, e, sc, st);
    assert EvalDeclare(fuel - 1, FloatType, x, e, sc, st) == ScopeDeclare(fuel - 1, sc, x, FloatType, e, st);
    assert TypecheckBinop(IntType, IntType, Div);
    assert Evaluate(fuel - 2, Lit(Int(1)), sc, st1) == (Ok(Int(1)), st1);
    assert Evaluate(fuel - 2, Lit(Int(0)), sc, st1) == (Ok(Int(0)), st1);
    assert ApplyOp(Int(1), Div, Int(0)) == Err(ZeroDivisionError);
    assert EvalBinop(fuel - 2, Lit(Int(1)), Div, Lit(Int(0)), sc, st1) == (Err(ZeroDivisionError), st1);
    assert Evaluate(fuel - 1, e, sc, st1) == (Err(ZeroDivisionError), st1);
  }

  // ----- assign -----

  /** Assigning a name no scope on the chain declares raises LookupError and
      changes nothing. */
  lemma AssignUndeclaredFails(fuel: nat, sc: nat, st: State, x: string, e: Expr)
    requires Valid(st) && sc < |st.frames| && fuel >= 1
    requires forall a: nat | a < |st.frames| && Ancestor(st.frames, sc, a) :: x !in st.frames[a].types
    requires TypeOf(e, sc, st).Ok?
    ensures Evaluate(fuel, Assign(x, e), sc, st) == (Err(LookupError), st)
  {
    DeclaredIffSomeAncestor(st.frames, sc, x);
    assert LookupType(st.frames, sc, x) == Err(LookupError);
    assert Evaluate(fuel, Assign(x, e), sc, st) == EvalAssign(fuel - 1, x, e, sc, st);
  }

  /** Assigning a value whose type differs from the declared one raises
      TypeError and changes nothing. */
  lemma AssignWrongTypeFails(fuel: nat, sc: nat, st: State, x: string, e: Expr, tx: Type, te: Type)
    requires Valid(st) && sc < |st.frames| && fuel >= 1
    requires LookupType(st.frames, sc, x) == Ok(tx) && TypeOf(e, sc, st) == Ok(te)
    requires !TypeEq(tx, te)
    ensures Evaluate(fuel, Assign(x, e), sc, st) == (Err(TypeError), st)
  {
    assert Evaluate(fuel, Assign(x, e), sc, st) == EvalAssign(fuel - 1, x, e, sc, st);
  }

  /** A well-typed assignment writes the receiver's own `values` and nothing
      else: a frame further up the chain that declared the name keeps its
      old value. */
  lemma AssignWritesReceiverOnly(fuel: nat, sc: nat, st: State, x: string, v: Value)
    requires Valid(st) && sc < |st.frames| && fuel >= 2
    requires LookupType(st.frames, sc, x) == Ok(ValueType(v))
    ensures var r := Evaluate(fuel, Assign(x, Lit(v)), sc, st);
            && r.0 == Ok(v)
            && LookupValue(r.1.frames, sc, x) == Ok(v)
            && r.1.frames[sc].values == st.frames[sc].values[x := v]
            && r.1.frames[sc].types == st.frames[sc].types
            && (forall i | 0 <= i < |st.frames| && i != sc :: r.1.frames[i] == st.frames[i])
            && r.1.output == st.output
  {
    var t := ValueType(v);
    assert TypeEq(t, t);
    assert Evaluate(fuel - 1, Lit(v), sc, st) == (Ok(v), st);
    var st2 := st.(frames := SetValue(st.frames, sc, x, v));
    assert ScopeAssign(fuel - 1, sc, x, Lit(v), st) == (Ok(v), st2);
    assert EvalAssign(fuel - 1, x, Lit(v), sc, st) == (Ok(v), st2);
    assert Evaluate(fuel, Assign(x, Lit(v)), sc, st) == (Ok(v), st2);
  }

  /** Consequence of the above: an assignment inside a block to a name of
      the enclosing scope is lost when the block ends; the enclosing scope
      still sees the old value. */
  lemma AssignInBlockIsLost(fuel: nat, sc: nat, st: State, x: string, v: Value)
    requires Valid(st) && sc < |st.frames| && fuel >= 3
    requires LookupType(st.frames, sc, x) == Ok(ValueType(v))
    ensures var r := Evaluate(fuel, Block(Assign(x, Lit(v))), sc, st);
            r.0 == Ok(v) && LookupValue(r.1.frames, sc, x) == LookupValue(st.frames, sc, x)
  {
    var n := |st.frames|;
    var st1 := PushScope(st, sc);
    LookupsReadOnlyChain(st.frames, st1.frames, sc, x);
    assert LookupType(st1.frames, n, x) == LookupType(st1.frames, sc, x);
    AssignWritesReceiverOnly(fuel - 1, n, st1, x, v);
    var r := Evaluate(fuel, Block(Assign(x, Lit(v))), sc, st);
    assert r == EvalBlock(fuel - 1, Assign(x, Lit(v)), sc, st);
    LookupsReadOnlyChain(st.frames, r.1.frames, sc, x);
  }

  // ----- binary operators -----

  /** When `typecheck_binop` rejects the operand types, eval_binop raises
      TypeError before evaluating either operand: the state is unchanged,
      nothing is printed. */
  lemma BinopRejectedBeforeOperands(fuel: nat, sc: nat, st: State, l: Expr, op: Op, r: Expr, t1: Type, t2: Type)
    requires Valid(st) && sc < |st.frames| && fuel >= 1
    requires TypeOf(l, sc, st) == Ok(t1) && TypeOf(r, sc, st) == Ok(t2)
    requires !TypecheckBinop(t1, t2, op)
    ensures Evaluate(fuel, Binop(l, op, r), sc, st) == (Err(TypeError), st)
  {
    assert Evaluate(fuel, Binop(l, op, r), sc, st) == EvalBinop(fuel - 1, l, op, r, sc, st);
  }

  /** Two literals the operand check accepts evaluate to the operator's
      Python result, with the state unchanged. */
  lemma BinopLiterals(fuel: nat, sc: nat, st: State, a: Value, op: Op, b: Value)
    requires Valid(st) && sc < |st.frames| && fuel >= 2
    requires TypecheckBinop(ValueType(a), ValueType(b), op)
    ensures Evaluate(fuel, Binop(Lit(a), op, Lit(b)), sc, st) == (ApplyOp(a, op, b), st)
  {
    assert Evaluate(fuel - 1, Lit(a), sc, st) == (Ok(a), st);
    assert Evaluate(fuel - 1, Lit(b), sc, st) == (Ok(b), st);
    assert EvalBinop(fuel - 1, Lit(a), op, Lit(b), sc, st) == (ApplyOp(a, op, b), st);
  }

  /** The worked examples of the operator table: `1 + 1.5`, `"a" * 3` and
      `3 * "a"`. */
  lemma BinopExamples(fuel: nat, sc: nat, st: State)
    requires Valid(st) && sc < |st.frames| && fuel >= 2
    ensures Evaluate(fuel, Binop(Lit(Int(1)), Add, Lit(Float(1.5))), sc, st) == (Ok(Float(2.5)), st)
    ensures Evaluate(fuel, Binop(Lit(Str("a")), Mul, Lit(Int(3))), sc, st) == (Ok(Str("aaa")), st)
    ensures Evaluate(fuel, Binop(Lit(Int(3)), Mul, Lit(Str("a"))), sc, st) == (Ok(Str("aaa")), st)
  {
    assert AreNumbers(IntType, FloatType);
    BinopLiterals(fuel, sc, st, Int(1), Add, Float(1.5));
    assert ApplyOp(Int(1), Add, Float(1.5)) == Ok(Float(2.5));
    assert Repeat("a", 3) == "a" + Repeat("a", 2);
    assert Repeat("a", 2) == "a" + Repeat("a", 1);
    assert Repeat("a", 1) == "a" + Repeat("a", 0);
    assert Repeat("a", 0) == "";
    assert Repeat("a", 3) == "aaa";
    assert TypeEq(StrType, StrType) && TypeEq(IntType, IntType);
    BinopLiterals(fuel, sc, st, Str("a"), Mul, Int(3));
    assert ApplyOp(Str("a"), Mul, Int(3)) == Ok(Str("aaa"));
    BinopLiterals(fuel, sc, st, Int(3), Mul, Str("a"));
    assert ApplyOp(Int(3), Mul, Str("a")) == Ok(Str("aaa"));
  }

  // ----- if and while -----

  /** In a fresh child scope an expression has the type it has in the
      parent: the child's dicts are empty, so every name resolves through
      the parent. */
  lemma {:induction false} TypeInFreshChild(e: Expr, st: State, sc: nat)
    requires Valid(st) && sc < |st.frames|
    ensures TypeOf(e, |st.frames|, PushScope(st, sc)) == TypeOf(e, sc, st)
    decreases e
  {
    var st1 := PushScope(st, sc);
    var n := |st.frames|;
    match e
    case Name(x) =>
      LookupsReadOnlyChain(st.frames, st1.frames, sc, x);
    case Binop(l, _, r) =>
      TypeInFreshChild(l, st, sc);
      TypeInFreshChild(r, st, sc);
    case Assign(_, rhs) => TypeInFreshChild(rhs, st, sc);
    case Sequence(_, b) => TypeInFreshChild(b, st, sc);
    case Block(b) => TypeInFreshChild(b, st, sc);
    case If(_, t, f) =>
      TypeInFreshChild(t, st, sc);
      TypeInFreshChild(f, st, sc);
    case While(_, b) => TypeInFreshChild(b, st, sc);
    case Uminus(o) => TypeInFreshChild(o, st, sc);
    case _ =>
  }

  /** An `if` whose condition is not typed bool raises TypeError, and no
      branch runs. */
  lemma IfNeedsBoolCondition(fuel: nat, sc: nat, st: State, c: Expr, t: Expr, f: Expr, tc: Type)
    requires Valid(st) && sc < |st.frames| && fuel >= 1
    requires TypeOf(c, sc, st) == Ok(tc) && !TypeEq(tc, BoolType)
    ensures Evaluate(fuel, If(c, t, f), sc, st) == (Err(TypeError), PushScope(st, sc))
  {
    TypeInFreshChild(c, st, sc);
  }

  /** A `while` whose condition is not typed bool raises TypeError before
      anything happens. */
  lemma WhileNeedsBoolCondition(fuel: nat, sc: nat, st: State, c: Expr, b: Expr, tc: Type)
    requires Valid(st) && sc < |st.frames| && fuel >= 1
    requires TypeOf(c, sc, st) == Ok(tc) && !TypeEq(tc, BoolType)
    ensures Evaluate(fuel, While(c, b), sc, st) == (Err(TypeError), st)
  {
    assert Evaluate(fuel, While(c, b), sc, st) == EvalWhile(fuel - 1, c, b, sc, st);
  }

  /** A `not` node is typed by its operand expression, never the class
      bool, so an `if` on it is always refused. */
  lemma NotConditionRefused(fuel: nat, sc: nat, st: State, o: Expr, t: Expr, f: Expr)
    requires Valid(st) && sc < |st.frames| && fuel >= 1
    ensures Evaluate(fuel, If(Not(o), t, f), sc, st).0 == Err(TypeError)
  {
    TypeInFreshChild(Not(o), st, sc);
  }

  /** The same holds for a `print` node used as a condition. */
  lemma PrintConditionRefused(fuel: nat, sc: nat, st: State, o: Expr, t: Expr, f: Expr)
    requires Valid(st) && sc < |st.frames| && fuel >= 1
    ensures Evaluate(fuel, If(Print(o), t, f), sc, st).0 == Err(TypeError)
  {
    TypeInFreshChild(Print(o), st, sc);
  }

  /** A bool declaration initialised with `not` is refused before anything
      changes. */
  lemma NotDeclarationRefused(fuel: nat, sc: nat, st: State, o: Expr, x: string)
    requires Valid(st) && sc < |st.frames| && fuel >= 1
    ensures Evaluate(fuel, Declare(BoolType, x, Not(o)), sc, st) == (Err(TypeError), st)
  {
    assert !TypeEq(Unresolved(Not(o)), BoolType);
  }

  /** A well-typed `if` evaluates its condition in a new child scope and
      then runs exactly the branch the condition's truth value selects, in
      that same scope. */
  lemma IfRunsChosenBranch(fuel: nat, sc: nat, st: State, c: Expr, t: Expr, f: Expr)
    requires Valid(st) && sc < |st.frames| && fuel >= 1
    requires TypeOf(c, sc, st) == Ok(BoolType)
    requires Evaluate(fuel - 1, c, |st.frames|, PushScope(st, sc)).0.Ok?
    ensures var cond := Evaluate(fuel - 1, c, |st.frames|, PushScope(st, sc));
            Evaluate(fuel, If(c, t, f), sc, st)
            == if Truthy(cond.0.value) then Evaluate(fuel - 1, t, |st.frames|, cond.1)
               else Evaluate(fuel - 1, f, |st.frames|, cond.1)
  {
    var n := |st.frames|;
    var st1 := PushScope(st, sc);
    TypeInFreshChild(c, st, sc);
    assert TypeEq(BoolType, BoolType);
    assert Evaluate(fuel, If(c, t, f), sc, st) == EvalIf(fuel - 1, c, t, f, sc, st);
  }

  /** An `if` without `else` (its else branch is None) whose condition
      evaluates to a falsy value yields None; the state is the one the
      condition left, so no branch ran. */
  lemma IfWithoutElseFalse(fuel: nat, sc: nat, st: State, c: Expr, t: Expr)
    requires Valid(st) && sc < |st.frames| && fuel >= 2
    requires TypeOf(c, sc, st) == Ok(BoolType)
    requires var rc := Evaluate(fuel - 1, c, |st.frames|, PushScope(st, sc)).0;
             rc.Ok? && !Truthy(rc.value)
    ensures Evaluate(fuel, If(c, t, Lit(NoneValue)), sc, st)
            == (Ok(NoneValue), Evaluate(fuel - 1, c, |st.frames|, PushScope(st, sc)).1)
  {
    IfRunsChosenBranch(fuel, sc, st, c, t, Lit(NoneValue));
  }

  /** A well-typed `while` whose condition is falsy the first time it is
      evaluated runs no iteration and yields None; the state is the one
      the condition left in the loop scope. */
  lemma WhileZeroIterations(fuel: nat, sc: nat, st: State, c: Expr, b: Expr)
    requires Valid(st) && sc < |st.frames| && fuel >= 2
    requires TypeOf(c, sc, st) == Ok(BoolType)
    requires var rc := Evaluate(fuel - 2, c, |st.frames|, PushScope(st, sc)).0;
             rc.Ok? && !Truthy(rc.value)
    ensures Evaluate(fuel, While(c, b), sc, st)
            == (Ok(NoneValue), Evaluate(fuel - 2, c, |st.frames|, PushScope(st, sc)).1)
  {
    WhileEntersLoop(fuel, c, b, sc, st);
  }

  /** A loop whose condition is the literal True runs its body again. */
  lemma TrueLoopRunsBody(f: nat, b: Expr, ws: nat, st: State, result: Value)
    requires Valid(st) && ws < |st.frames| && f >= 2
    ensures WhileLoop(f, Lit(Bool(true)), b, ws, st, result) == WhileBody(f - 1, Lit(Bool(true)), b, ws, st)
  {
    assert Evaluate(f - 1, Lit(Bool(true)), ws, st) == (Ok(Bool(true)), st);
  }

  /** A loop body that declares a name its scope already holds stops the
      loop with RuntimeError, leaving the state as it was. */
  lemma RedeclaringBodyFails(f: nat, c: Expr, t: Type, y: string, v: Value, ws: nat, st: State)
    requires Valid(st) && ws < |st.frames| && f >= 1
    requires ValueType(v) == t && y in st.frames[ws].types
    ensures WhileBody(f, c, Declare(t, y, Lit(v)), ws, st) == (Err(RuntimeError), st)
  {
    RedeclareFails(f, ws, st, t, y, v);
  }

  /** A `while` whose condition types as bool pushes one child scope and
      starts the loop there with the result None. */
  lemma WhileEntersLoop(fuel: nat, c: Expr, b: Expr, sc: nat, st: State)
    requires Valid(st) && sc < |st.frames| && fuel >= 1
    requires TypeOf(c, sc, st) == Ok(BoolType)
    ensures Evaluate(fuel, While(c, b), sc, st) == WhileLoop(fuel - 1, c, b, |st.frames|, PushScope(st, sc), NoneValue)
  {
    assert TypeEq(BoolType, BoolType);
  }

  /** A round whose body succeeds goes back to the test with the body's
      value as the loop's result. */
  lemma BodyThenLoop(f: nat, c: Expr, b: Expr, ws: nat, st: State)
    requires Valid(st) && ws < |st.frames|
    requires Evaluate(f, b, ws, st).0.Ok?
    ensures var (rb, st2) := Evaluate(f, b, ws, st);
            WhileBody(f, c, b, ws, st) == WhileLoop(f, c, b, ws, st2, rb.value)
  {
  }

  /** From a scope that lacks y, a `True` loop whose body declares y runs
      one round that declares it and fails on the next. */
  lemma DeclaringBodyFailsNextRound(f: nat, t: Type, y: string, v: Value, ws: nat, st: State)
    requires Valid(st) && ws < |st.frames| && f >= 2
    requires ValueType(v) == t && y !in st.frames[ws].types
    ensures WhileBody(f, Lit(Bool(true)), Declare(t, y, Lit(v)), ws, st).0 == Err(RuntimeError)
  {
    var c := Lit(Bool(true));
    var body := Declare(t, y, Lit(v));
    DeclareLiteral(f, ws, st, t, y, v);
    BodyThenLoop(f, c, body, ws, st);
    var st2 := Evaluate(f, body, ws, st).1;
    TrueLoopRunsBody(f, body, ws, st2, v);
    RedeclaringBodyFails(f - 1, c, t, y, v, ws, st2);
  }

  /** Every iteration of a `while` runs in the same child scope, so a
      declaration in the body succeeds the first time and raises
      RuntimeError the second time. */
  lemma WhileRedeclareFails(fuel: nat, sc: nat, st: State, t: Type, y: string, v: Value)
    requires Valid(st) && sc < |st.frames| && fuel >= 4
    requires ValueType(v) == t
    ensures Evaluate(fuel, While(Lit(Bool(true)), Declare(t, y, Lit(v))), sc, st).0 == Err(RuntimeError)
  {
    var c := Lit(Bool(true));
    var body := Declare(t, y, Lit(v));
    WhileEntersLoop(fuel, c, body, sc, st);
    TrueLoopRunsBody(fuel - 1, body, |st.frames|, PushScope(st, sc), NoneValue);
    DeclaringBodyFailsNextRound(fuel - 2, t, y, v, |st.frames|, PushScope(st, sc));
  }

  /** `get_if_type` widens an int branch and a float branch to float, yet
      the value of the branch taken keeps its own class. */
  lemma IfTypeIsNotTheValueType(fuel: nat, sc: nat, st: State)
    requires Valid(st) && sc < |st.frames| && fuel >= 2
    ensures TypeOf(If(Lit(Bool(true)), Lit(Int(1)), Lit(Float(2.0))), sc, st) == Ok(FloatType)
    ensures Evaluate(fuel, If(Lit(Bool(true)), Lit(Int(1)), Lit(Float(2.0))), sc, st).0 == Ok(Int(1))
  {
    var n := |st.frames|;
    var st1 := PushScope(st, sc);
    assert AreNumbers(IntType, FloatType) && TypeEq(BoolType, BoolType);
    assert Evaluate(fuel - 1, Lit(Bool(true)), n, st1) == (Ok(Bool(true)), st1);
    assert Evaluate(fuel - 1, Lit(Int(1)), n, st1) == (Ok(Int(1)), st1);
    assert EvalIf(fuel - 1, Lit(Bool(true)), Lit(Int(1)), Lit(Float(2.0)), sc, st) == (Ok(Int(1)), st1);
  }

  // ----- calls -----

  /** An unknown function raises NameError; a wrong number of arguments
      raises ValueError. Neither changes the state. */
  lemma CallErrors(fuel: nat, sc: nat, st: State, f: string, args: seq<Expr>)
    requires Valid(st) && sc < |st.frames| && fuel >= 1
    ensures f !in st.functions ==> Evaluate(fuel, Call(f, args), sc, st) == (Err(NameError), st)
    ensures f in st.functions && |args| != |st.arguments[f]| ==>
              Evaluate(fuel, Call(f, args), sc, st) == (Err(ValueError), st)
  {
  }

  /** A call changes no frame that existed before it: neither the caller's
      variables nor the defining scope nor any other. Every lookup made
      from an existing scope after the call gives what it gave before, so a
      later call starts from the same bindings and none of this call's
      locals. */
  lemma CallLeavesExistingScopes(fuel: nat, sc: nat, st: State, f: string, args: seq<Expr>, a: nat, x: string)
    requires Valid(st) && sc < |st.frames| && a < |st.frames|
    ensures var r := Evaluate(fuel, Call(f, args), sc, st);
            && LookupType(r.1.frames, a, x) == LookupType(st.frames, a, x)
            && LookupValue(r.1.frames, a, x) == LookupValue(st.frames, a, x)
  {
    var r := Evaluate(fuel, Call(f, args), sc, st);
    if fuel > 0 {
      assert r == EvalCall(fuel - 1, f, args, sc, st);
    }
    LookupsReadOnlyChain(st.frames, r.1.frames, a, x);
  }

  /** A call whose argument loop fails returns that loop's error. */
  lemma CallFailsInArguments(fuel: nat, f: string, args: seq<Expr>, sc: nat, st: State)
    requires Valid(st) && sc < |st.frames| && fuel >= 1
    requires f in st.functions && |args| == |st.arguments[f]|
    ensures var parent := if sc == 0 then st.functionScopes[f] else sc;
            var ra := EvalArgs(fuel - 1, st.functionScopes[f], args, st.arguments[f], 0, |st.frames|, PushScope(st, parent), []).0;
            ra.Err? ==> Evaluate(fuel, Call(f, args), sc, st).0 == Err(ra.error)
  {
  }

  /** An argument whose value cannot be converted to the parameter's class
      raises TypeError: here a string that is not an integer, passed for an
      int parameter. */
  lemma CallArgumentNotConvertible(fuel: nat, sc: nat, st: State, f: string, p: string, s: string)
    requires Valid(st) && sc < |st.frames| && fuel >= 2
    requires f in st.functions && st.arguments[f] == [p]
    requires LookupType(st.frames, st.functionScopes[f], p) == Ok(IntType)
    requires ParseInt(s) == None
    ensures Evaluate(fuel, Call(f, [Lit(Str(s))]), sc, st).0 == Err(TypeError)
  {
    var fs := st.functionScopes[f];
    var parent := if sc == 0 then fs else sc;
    var st1 := PushScope(st, parent);
    LookupsReadOnlyChain(st.frames, st1.frames, fs, p);
    assert EvalArgs(fuel - 1, fs, [Lit(Str(s))], [p], 0, |st.frames|, st1, []).0 == Err(TypeError);
    CallFailsInArguments(fuel, f, [Lit(Str(s))], sc, st);
  }

  /** Called from the global scope, arguments are evaluated in a scope whose
      parent is the defining scope, where `p_statement_def` bound every
      parameter to None. An argument that names the parameter therefore
      reads that None, not the caller's variable of the same name, and an
      int parameter then fails its conversion with TypeError. */
  lemma GlobalCallArgumentSeesParameterNone(fuel: nat, st: State, f: string, p: string)
    requires Valid(st) && fuel >= 2
    requires f in st.functions && st.arguments[f] == [p]
    requires LookupType(st.frames, st.functionScopes[f], p) == Ok(IntType)
    requires LookupValue(st.frames, st.functionScopes[f], p) == Ok(NoneValue)
    ensures Evaluate(fuel, Call(f, [Name(p)]), 0, st).0 == Err(TypeError)
  {
    var fs := st.functionScopes[f];
    var n := |st.frames|;
    var st1 := PushScope(st, fs);
    LookupsReadOnlyChain(st.frames, st1.frames, fs, p);
    assert LookupValue(st1.frames, n, p) == Ok(NoneValue);
    assert Evaluate(fuel - 1, Name(p), n, st1) == (Ok(NoneValue), st1);
    assert EvalArgs(fuel - 1, fs, [Name(p)], [p], 0, n, st1, []).0 == Err(TypeError);
  }

  /** A step that changes only frame n (or adds frames) leaves the
      parameters' classes in a defining scope below n as they were. */
  lemma ParameterTypesKept(st: State, st1: State, n: nat, fs: nat, params: seq<string>)
    requires Valid(st) && Valid(st1) && fs < n && n <= |st.frames| && Evolves(st, st1, n)
    ensures forall k | 0 <= k < |params| :: LookupType(st1.frames, fs, params[k]) == LookupType(st.frames, fs, params[k])
  {
    forall k | 0 <= k < |params| ensures LookupType(st1.frames, fs, params[k]) == LookupType(st.frames, fs, params[k]) {
      LookupsReadOnlyChain(st.frames, st1.frames, fs, params[k]);
    }
  }

  /** The first loop of `eval_call` yields, for each parameter from i on, a
      value whose class is the one the parameter has in the defining scope
      `fs` (converted when the argument's class differed), after the values
      already gathered. */
  lemma {:induction false} EvalArgsConverts(fuel: nat, fs: nat, args: seq<Expr>, params: seq<string>, i: nat, n: nat,
                                            st: State, acc: seq<Value>)
    requires Valid(st) && fs < n < |st.frames|
    requires |args| == |params| && i <= |args| && |acc| == i
    ensures var r := EvalArgs(fuel, fs, args, params, i, n, st, acc);
            r.0.Ok? ==>
              && r.0.value[..i] == acc
              && forall k | i <= k < |params| :: LookupType(st.frames, fs, params[k]) == Ok(ValueType(r.0.value[k]))
    decreases |args| - i
  {
    if i < |args| && LookupType(st.frames, fs, params[i]).Ok? {
      var pt := LookupType(st.frames, fs, params[i]).value;
      var (rv, st1) := Evaluate(fuel, args[i], n, st);
      if rv.Ok? {
        var v := rv.value;
        var cv := if TypeEq(ValueType(v), pt) then Ok(v) else ConvertTo(pt, v);
        if cv.Ok? {
          var w := cv.value;
          assert ValueType(w) == pt;
          assert EvalArgs(fuel, fs, args, params, i, n, st, acc) == EvalArgs(fuel, fs, args, params, i + 1, n, st1, acc + [w]);
          EvalArgsConverts(fuel, fs, args, params, i + 1, n, st1, acc + [w]);
          var r := EvalArgs(fuel, fs, args, params, i + 1, n, st1, acc + [w]);
          ParameterTypesKept(st, st1, n, fs, params);
          if r.0.Ok? {
            assert r.0.value[..i + 1][i] == w;
            assert r.0.value[..i] == r.0.value[..i + 1][..i];
          }
        }
      }
    }
  }

  /** Frame `n`'s values after parameters i.. are bound in order: each name
      receives its value, a repeated name keeping the last. */
  ghost function Rebound(m: map<string, Value>, params: seq<string>, vals: seq<Value>, i: nat): map<string, Value>
    requires |params| == |vals| && i <= |params|
    decreases |params| - i
  {
    if i == |params| then m else Rebound(m[params[i] := vals[i]], params, vals, i + 1)
  }

  /** A name that none of parameters i.. carries keeps its binding. */
  lemma {:induction false} ReboundKeeps(m: map<string, Value>, params: seq<string>, vals: seq<Value>, i: nat, x: string)
    requires |params| == |vals| && i <= |params|
    requires forall j | i <= j < |params| :: params[j] != x
    ensures (x in Rebound(m, params, vals, i)) == (x in m)
    ensures x in m ==> Rebound(m, params, vals, i)[x] == m[x]
    decreases |params| - i
  {
    if i < |params| {
      ReboundKeeps(m[params[i] := vals[i]], params, vals, i + 1, x);
    }
  }

  /** With distinct parameter names each parameter holds its own value. */
  lemma {:induction false} ReboundFinds(m: map<string, Value>, params: seq<string>, vals: seq<Value>, i: nat, k: nat)
    requires |params| == |vals| && i <= k < |params|
    requires forall a, b | i <= a < b < |params| :: params[a] != params[b]
    ensures params[k] in Rebound(m, params, vals, i) && Rebound(m, params, vals, i)[params[k]] == vals[k]
    decreases |params| - i
  {
    if k == i {
      ReboundKeeps(m[params[i] := vals[i]], params, vals, i + 1, params[k]);
    } else {
      ReboundFinds(m[params[i] := vals[i]], params, vals, i + 1, k);
    }
  }

  /** Binding a parameter by `assign` stores the value in the invocation
      scope's own `values` and nowhere else. */
  lemma AssignLiteralStores(fuel: nat, n: nat, x: string, v: Value, st: State)
    requires Valid(st) && n < |st.frames| && fuel >= 1
    ensures var r := ScopeAssign(fuel, n, x, Lit(v), st);
            r.0.Ok? ==> r.1.frames[n].values == st.frames[n].values[x := v]
  {
    assert Evaluate(fuel, Lit(v), n, st) == (Ok(v), st);
  }

  /** Binding a parameter by `declare` stores the value in the invocation
      scope's own `values` as well. */
  lemma DeclareLiteralStores(fuel: nat, n: nat, x: string, v: Value, st: State)
    requires Valid(st) && n < |st.frames| && fuel >= 1
    ensures var r := ScopeDeclare(fuel, n, x, ValueType(v), Lit(v), st);
            r.0.Ok? ==> r.1.frames[n].values == st.frames[n].values[x := v]
  {
    var st1 := st.(frames := SetType(st.frames, n, x, ValueType(v)));
    assert Evaluate(fuel, Lit(v), n, st1) == (Ok(v), st1);
  }

  /** The second loop of `eval_call`, when it succeeds, leaves the
      invocation scope's values as `Rebound` describes. */
  lemma {:induction false} BindParamsStores(fuel: nat, params: seq<string>, vals: seq<Value>, i: nat, n: nat, st: State)
    requires Valid(st) && n < |st.frames| && |params| == |vals| && i <= |params| && fuel >= 1
    ensures var r := BindParams(fuel, params, vals, i, n, st);
            r.0.Ok? ==> r.1.frames[n].values == Rebound(st.frames[n].values, params, vals, i)
    decreases |params| - i
  {
    if i < |params| {
      var step := if IsNameDeclared(st.frames, n, params[i]) then ScopeAssign(fuel, n, params[i], Lit(vals[i]), st)
                  else ScopeDeclare(fuel, n, params[i], ValueType(vals[i]), Lit(vals[i]), st);
      AssignLiteralStores(fuel, n, params[i], vals[i], st);
      DeclareLiteralStores(fuel, n, params[i], vals[i], st);
      if step.0.Ok? {
        BindParamsStores(fuel, params, vals, i + 1, n, step.1);
      }
    }
  }

  /** The argument loop of a call gives every parameter a value of the
      class the parameter has in the defining scope before the call. */
  lemma CallArgumentsConverted(fuel: nat, f: string, args: seq<Expr>, sc: nat, st: State)
    requires Valid(st) && sc < |st.frames|
    requires f in st.functions && |args| == |st.arguments[f]|
    ensures var params := st.arguments[f];
            var fs := st.functionScopes[f];
            var ea := EvalArgs(fuel, fs, args, params, 0, |st.frames|, PushScope(st, if sc == 0 then fs else sc), []);
            ea.0.Ok? ==> forall k | 0 <= k < |params| :: LookupType(st.frames, fs, params[k]) == Ok(ValueType(ea.0.value[k]))
  {
    var params := st.arguments[f];
    var fs := st.functionScopes[f];
    var st1 := PushScope(st, if sc == 0 then fs else sc);
    EvalArgsConverts(fuel, fs, args, params, 0, |st.frames|, st1, []);
    ParameterTypesKept(st, st1, |st.frames|, fs, params);
  }

  /** The binding loop of a call leaves the invocation scope `n` with its
      values after the argument loop, updated by the parameters in order
      (by `assign` or by `declare`, a repeated name keeping the last). */
  lemma CallBindsInOrder(fuel: nat, params: seq<string>, vals: seq<Value>, n: nat, st2: State)
    requires Valid(st2) && n < |st2.frames| && |params| == |vals| && fuel >= 1
    ensures var bp := BindParams(fuel, params, vals, 0, n, st2);
            bp.0.Ok? ==> bp.1.frames[n].values == Rebound(st2.frames[n].values, params, vals, 0)
  {
    BindParamsStores(fuel, params, vals, 0, n, st2);
  }

  /** A call whose two loops succeed evaluates the body in the invocation
      scope `n` and returns what that evaluation returns. */
  lemma CallRunsBody(fuel: nat, f: string, args: seq<Expr>, sc: nat, st: State)
    requires Valid(st) && sc < |st.frames|
    requires f in st.functions && |args| == |st.arguments[f]|
    ensures var n := |st.frames|;
            var ea := EvalArgs(fuel, st.functionScopes[f], args, st.arguments[f], 0, n,
                               PushScope(st, if sc == 0 then st.functionScopes[f] else sc), []);
            ea.0.Ok? ==>
              var bp := BindParams(fuel, st.arguments[f], ea.0.value, 0, n, ea.1);
              bp.0.Ok? ==> EvalCall(fuel, f, args, sc, st) == Evaluate(fuel, st.functions[f], n, bp.1)
  {
  }

  /** A call whose two loops succeed runs the body in the invocation scope
      `n`, where each parameter resolves to its converted argument. The
      parameter names are distinct, as they are for every function a
      definition registered. */
  lemma CallBindsAndRunsBody(fuel: nat, f: string, args: seq<Expr>, sc: nat, st: State)
    requires Valid(st) && sc < |st.frames| && fuel >= 1
    requires f in st.functions && |args| == |st.arguments[f]|
    requires forall a, b | 0 <= a < b < |st.arguments[f]| :: st.arguments[f][a] != st.arguments[f][b]
    ensures var params := st.arguments[f];
            var n := |st.frames|;
            var ea := EvalArgs(fuel, st.functionScopes[f], args, params, 0, n,
                               PushScope(st, if sc == 0 then st.functionScopes[f] else sc), []);
            ea.0.Ok? ==>
              var bp := BindParams(fuel, params, ea.0.value, 0, n, ea.1);
              bp.0.Ok? ==>
                && EvalCall(fuel, f, args, sc, st) == Evaluate(fuel, st.functions[f], n, bp.1)
                && forall k | 0 <= k < |params| :: LookupValue(bp.1.frames, n, params[k]) == Ok(ea.0.value[k])
  {
    var params := st.arguments[f];
    var n := |st.frames|;
    var ea := EvalArgs(fuel, st.functionScopes[f], args, params, 0, n,
                       PushScope(st, if sc == 0 then st.functionScopes[f] else sc), []);
    CallRunsBody(fuel, f, args, sc, st);
    if ea.0.Ok? {
      CallBindsInOrder(fuel, params, ea.0.value, n, ea.1);
      var bp := BindParams(fuel, params, ea.0.value, 0, n, ea.1);
      if bp.0.Ok? {
        forall k | 0 <= k < |params| ensures LookupValue(bp.1.frames, n, params[k]) == Ok(ea.0.value[k]) {
          ReboundFinds(ea.1.frames[n].values, params, ea.0.value, 0, k);
        }
      }
    }
  }

  /** The invocation scope's parent is the defining scope for a call made
      from the global scope but the CALLER's scope for any other call, so a
      name the invocation scope does not hold itself resolves, in the body,
      as it did in that scope before the call: a body called from inside
      another function or block sees the caller's locals. */
  lemma CallSeesParentScope(fuel: nat, f: string, args: seq<Expr>, sc: nat, st: State, x: string)
    requires Valid(st) && sc < |st.frames| && fuel >= 2
    requires f in st.functions && |args| == |st.arguments[f]|
    ensures var params := st.arguments[f];
            var fs := st.functionScopes[f];
            var parent := if sc == 0 then fs else sc;
            var n := |st.frames|;
            var ea := EvalArgs(fuel - 1, fs, args, params, 0, n, PushScope(st, parent), []);
            ea.0.Ok? ==>
              var bp := BindParams(fuel - 1, params, ea.0.value, 0, n, ea.1);
              bp.0.Ok? ==>
                && bp.1.frames[n].parent == Some(parent)
                && (x !in bp.1.frames[n].values ==> LookupValue(bp.1.frames, n, x) == LookupValue(st.frames, parent, x))
                && (x !in bp.1.frames[n].types ==> LookupType(bp.1.frames, n, x) == LookupType(st.frames, parent, x))
  {
    var params := st.arguments[f];
    var fs := st.functionScopes[f];
    var parent := if sc == 0 then fs else sc;
    var n := |st.frames|;
    var st1 := PushScope(st, parent);
    var ea := EvalArgs(fuel - 1, fs, args, params, 0, n, st1, []);
    if ea.0.Ok? {
      var bp := BindParams(fuel - 1, params, ea.0.value, 0, n, ea.1);
      if bp.0.Ok? {
        assert bp.1.frames[n].parent == Some(parent);
        LookupsReadOnlyChain(st.frames, bp.1.frames, parent, x);
      }
    }
  }

  /** A call whose argument loop succeeds but whose binding loop fails
      returns the binding loop's error. */
  lemma CallFailsInBinding(fuel: nat, f: string, args: seq<Expr>, sc: nat, st: State)
    requires Valid(st) && sc < |st.frames|
    requires f in st.functions && |args| == |st.arguments[f]|
    ensures var n := |st.frames|;
            var ea := EvalArgs(fuel, st.functionScopes[f], args, st.arguments[f], 0, n,
                               PushScope(st, if sc == 0 then st.functionScopes[f] else sc), []);
            ea.0.Ok? ==>
              var rb := BindParams(fuel, st.arguments[f], ea.0.value, 0, n, ea.1).0;
              rb.Err? ==> EvalCall(fuel, f, args, sc, st).0 == Err(rb.error)
  {
  }

  /** One literal argument of the parameter's own class passes the
      argument loop unconverted. */
  lemma LiteralArgumentPasses(fuel: nat, fs: nat, p: string, v: Value, n: nat, st: State)
    requires Valid(st) && fs < |st.frames| && n < |st.frames| && fuel >= 1
    requires LookupType(st.frames, fs, p) == Ok(ValueType(v))
    ensures EvalArgs(fuel, fs, [Lit(v)], [p], 0, n, st, []) == (Ok([v]), st)
  {
    assert TypeEq(ValueType(v), ValueType(v));
    assert Evaluate(fuel, Lit(v), n, st) == (Ok(v), st);
    assert [] + [v] == [v];
  }

  /** Binding by `assign` a value whose class differs from the class the
      name already has raises TypeError. */
  lemma AssignBindingClashes(fuel: nat, p: string, v: Value, n: nat, st: State, tx: Type)
    requires Valid(st) && n < |st.frames|
    requires LookupType(st.frames, n, p) == Ok(tx) && tx != ValueType(v)
    ensures BindParams(fuel, [p], [v], 0, n, st).0 == Err(TypeError)
  {
    assert IsNameDeclared(st.frames, n, p);
    assert AssignCheck(n, p, Lit(v), st) == Err(TypeError);
  }

  /** Called from a non-global scope, a parameter whose name is visible
      from the caller is bound by `assign`, which checks the argument's
      class against the class the name has there: a visible variable of
      another class than the parameter's makes the call fail with
      TypeError, even for an argument of the parameter's own class. */
  lemma CallParameterTypeClash(fuel: nat, f: string, sc: nat, st: State, p: string, v: Value, tx: Type)
    requires Valid(st) && sc < |st.frames| && sc != 0 && fuel >= 2
    requires f in st.functions && st.arguments[f] == [p]
    requires LookupType(st.frames, st.functionScopes[f], p) == Ok(ValueType(v))
    requires LookupType(st.frames, sc, p) == Ok(tx) && tx != ValueType(v)
    ensures Evaluate(fuel, Call(f, [Lit(v)]), sc, st).0 == Err(TypeError)
  {
    var fs := st.functionScopes[f];
    var n := |st.frames|;
    var st1 := PushScope(st, sc);
    LookupsReadOnlyChain(st.frames, st1.frames, fs, p);
    LookupsReadOnlyChain(st.frames, st1.frames, sc, p);
    LiteralArgumentPasses(fuel - 1, fs, p, v, n, st1);
    assert LookupType(st1.frames, n, p) == Ok(tx);
    AssignBindingClashes(fuel - 1, p, v, n, st1, tx);
    CallFailsInBinding(fuel - 1, f, [Lit(v)], sc, st);
    EvaluateRepeatedNode(fuel, Call(f, [Lit(v)]), sc, st);
  }
}

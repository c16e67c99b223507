/** The static typer: `get_type`, `get_binop_type`, `get_if_type`,
    `are_numbers` and `typecheck_binop` of repl.py. They read the scopes and
    the return-type registry but never evaluate anything. */
module Typer {
  import opened Ast
  import opened PyOps
  import opened Scopes

  /** Python `==` between two objects `get_type` returned. Classes compare by
      identity. An unresolved type is an operand expression; when both are
      bare literals they compare as Python values (1 == True == 1.0), and the
      literal None equals the None of NoType. */
  function TypeEq(a: Type, b: Type): (r: bool)
    ensures a == b ==> r
    ensures IsClass(a) || IsClass(b) ==> (r <==> a == b)
  {
    match (a, b)
    case (Unresolved(Lit(v)), Unresolved(Lit(w))) => PyEq(v, w)
    case (Unresolved(Lit(NoneValue)), NoType) => true
    case (NoType, Unresolved(Lit(NoneValue))) => true
    case _ => a == b
  }

  /** A class in the sense of `str_to_type` plus NoneType: what declarations
      and runtime values carry. */
  predicate IsClass(t: Type)
  {
    t.IntType? || t.FloatType? || t.StrType? || t.BoolType? || t.NoneType?
  }

  lemma TypeEqIsEquivalence(a: Type, b: Type, c: Type)
    ensures TypeEq(a, a)
    ensures TypeEq(a, b) == TypeEq(b, a)
    ensures IsClass(a) ==> (TypeEq(a, b) <==> a == b)
  {
  }

  /** True for an unresolved type whose operand is an int or float literal:
      the first disjunct of `are_numbers` tests `type(val1)`, which only such
      a raw value passes. */
  predicate IsNumericLiteral(t: Type)
  {
    t.Unresolved? && t.operand.Lit? && (t.operand.v.Int? || t.operand.v.Float?)
  }

  /** `are_numbers(t1, t2)` (repl.py:463-465). */
  function AreNumbers(t1: Type, t2: Type): (r: bool)
    ensures IsClass(t1) && IsClass(t2) ==>
              (r <==> (t1 == IntType || t1 == FloatType) && (t2 == IntType || t2 == FloatType))
  {
    (IsNumericLiteral(t1) && IsNumericLiteral(t2))
    || ((TypeEq(t1, FloatType) || TypeEq(t1, IntType)) && (TypeEq(t2, FloatType) || TypeEq(t2, IntType)))
  }

  predicate IsComparison(op: Op) { op == Gt || op == Lt || op == Eq || op == Ne }

  /** `get_binop_type` (repl.py:450-460), given the results of `get_type` on
      the two operands. Comparisons and `/` do not look at the operands, so
      an operand whose type cannot be computed does not matter there. */
  function BinopType(op: Op, r1: Result<Type>, r2: Result<Type>): (r: Result<Type>)
    ensures IsComparison(op) ==> r == Ok(BoolType)
    ensures op == Div ==> r == Ok(FloatType)
    ensures r.Err? <==> !IsComparison(op) && op != Div && (r1.Err? || r2.Err?)
    ensures r.Err? ==> r == r1 || r == r2
    ensures r1.Ok? && r2.Ok? && r1.value == r2.value && !IsComparison(op) && op != Div ==> r == r1
  {
    if IsComparison(op) then Ok(BoolType)
    else if op == Div then Ok(FloatType)
    else match r1
      case Err(e) => Err(e)
      case Ok(t1) =>
        match r2
        case Err(e) => Err(e)
        case Ok(t2) =>
          if !TypeEq(t1, t2) && (op == Sub || op == Pow) then Ok(FloatType)
          else if TypeEq(t1, t2) then Ok(t1)
          else if op == Mul && (TypeEq(t1, StrType) || TypeEq(t1, IntType))
                            && (TypeEq(t2, StrType) || TypeEq(t2, IntType)) then Ok(StrType)
          else if (op == Add || op == Mul) && AreNumbers(t1, t2) then Ok(FloatType)
          else Ok(NoType)
  }

  /** `get_if_type` (repl.py:382-391), given the branch types. */
  function IfType(rt: Result<Type>, rf: Result<Type>): (r: Result<Type>)
    ensures r.Err? <==> rt.Err? || rf.Err?
    ensures r.Err? ==> r == rt || r == rf
    ensures r.Ok? ==> (TypeEq(r.value, rt.value) && TypeEq(r.value, rf.value)) || r.value == FloatType || r.value == NoType
    ensures rt.Ok? && rf.Ok? && rt.value == rf.value ==> r == rt
  {
    match rt
    case Err(e) => Err(e)
    case Ok(t) =>
      match rf
      case Err(e) => Err(e)
      case Ok(f) =>
        if TypeEq(t, f) then Ok(t)
        else if AreNumbers(t, f) then Ok(FloatType)
        else Ok(NoType)
  }

  /** `get_type(expr, scope)` (repl.py:184-206). A call's type is its
      registered return type (KeyError for an unknown name); the fallback
      branch returns `expr[1]`: the target class of `convert`, the declared
      class of `declare`, and the operand of `not` and `print`. */
  function GetType(e: Expr, frames: seq<Frame>, sc: nat, ftypes: map<string, Type>): (r: Result<Type>)
    requires WellLinked(frames) && sc < |frames|
    ensures r.Err? ==> r.error == LookupError || r.error == KeyError
    decreases e
  {
    match e
    case Lit(v) => Ok(ValueType(v))
    case Call(f, _) => if f in ftypes then Ok(ftypes[f]) else Err(KeyError)
    case Name(x) => LookupType(frames, sc, x)
    case Binop(l, op, r) => BinopType(op, GetType(l, frames, sc, ftypes), GetType(r, frames, sc, ftypes))
    case Assign(_, rhs) => GetType(rhs, frames, sc, ftypes)
    case Sequence(_, b) => GetType(b, frames, sc, ftypes)
    case Block(b) => GetType(b, frames, sc, ftypes)
    case If(_, t, f) => IfType(GetType(t, frames, sc, ftypes), GetType(f, frames, sc, ftypes))
    case While(_, b) => GetType(b, frames, sc, ftypes)
    case Uminus(o) => GetType(o, frames, sc, ftypes)
    case Convert(t, _, _) => Ok(t)
    case Declare(t, _, _) => Ok(t)
    case Not(o) => Ok(Unresolved(o))
    case Print(o) => Ok(Unresolved(o))
  }

  /** `typecheck_binop` (repl.py:468-477): false where its assertion fails. */
  function TypecheckBinop(t1: Type, t2: Type, op: Op): (r: bool)
    ensures op == Eq || op == Ne ==> r
    ensures r && !IsComparison(op) && IsClass(t1) && IsClass(t2) ==>
              t1 != NoneType && t2 != NoneType && t1 != BoolType && t2 != BoolType
  {
    match op
    case Sub => AreNumbers(t1, t2)
    case Div => AreNumbers(t1, t2)
    case Pow => AreNumbers(t1, t2)
    case Add => AreNumbers(t1, t2) || (TypeEq(t1, t2) && TypeEq(t2, StrType))
    case Mul => AreNumbers(t1, t2) || (TypeEq(t1, IntType) && TypeEq(t2, StrType))
                                   || (TypeEq(t2, IntType) && TypeEq(t1, StrType))
    case Gt => AreNumbers(t1, t2) || TypeEq(t1, t2)
    case Lt => AreNumbers(t1, t2) || TypeEq(t1, t2)
    case Eq => true
    case Ne => true
  }

  /** On operands of known classes that `typecheck_binop` accepts,
      `get_binop_type` always yields a class, never the unknown None. */
  lemma CheckedBinopHasClass(op: Op, t1: Type, t2: Type)
    requires IsClass(t1) && IsClass(t2) && TypecheckBinop(t1, t2, op)
    ensures BinopType(op, Ok(t1), Ok(t2)).Ok? && IsClass(BinopType(op, Ok(t1), Ok(t2)).value)
  {
  }

  /** Soundness of `get_binop_type` against the operators: when the check
      accepts the operand classes and the operation succeeds, the result's
      class is the predicted one, with one exception, an int raised to a
      negative int. */
  lemma BinopTypeSound(a: Value, op: Op, b: Value)
    requires TypecheckBinop(ValueType(a), ValueType(b), op)
    requires ApplyOp(a, op, b).Ok?
    requires !(op == Pow && IsIntLike(b) && AsInt(b) < 0)
    ensures BinopType(op, Ok(ValueType(a)), Ok(ValueType(b))) == Ok(ValueType(ApplyOp(a, op, b).value))
  {
  }

  /** The exception: `2 ^ -1` is typed int but yields the float 0.5. */
  lemma NegativePowerIsNotInt()
    ensures TypecheckBinop(IntType, IntType, Pow)
    ensures BinopType(Pow, Ok(IntType), Ok(IntType)) == Ok(IntType)
    ensures ApplyOp(Int(2), Pow, Int(-1)) == Ok(Float(0.5))
  {
    assert IntPow(2, 1) == 2;
  }
}

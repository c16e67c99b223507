/** The interpreter's data model: runtime values, the objects `get_type`
    returns, the operators and the tuple-shaped syntax tree the parser builds,
    and the exceptions evaluation can raise. */
module Ast {

  datatype Option<T> = None | Some(value: T)

  /** A Python value the interpreter handles: the parser's literals
      (int, float, str, bool) and the `None` a missing `else` branch yields.
      Floats are modelled as exact reals: Python's rounding is not modelled. */
  datatype Value =
    | Int(i: int)
    | Float(r: real)
    | Str(s: string)
    | Bool(b: bool)
    | NoneValue

  /** The binary operators of `p_expression_binop`: + - * / ^ == != > < */
  datatype Op = Add | Sub | Mul | Div | Pow | Eq | Ne | Gt | Lt

  /** The node tuples of the parser: ('binop', l, op, r), ('if', c, t, e), ...
      A literal stands for a bare Python value in the tree. An `if` without
      `else` carries the literal None as its else branch. */
  datatype Expr =
    | Lit(v: Value)
    | Name(name: string)
    | Binop(left: Expr, op: Op, right: Expr)
    | Uminus(operand: Expr)
    | Not(operand: Expr)
    | Print(operand: Expr)
    | Convert(target: Type, keyword: string, operand: Expr)
    | Assign(name: string, rhs: Expr)
    | Declare(declType: Type, name: string, rhs: Expr)
    | Sequence(first: Expr, second: Expr)
    | Block(body: Expr)
    | If(cond: Expr, thenBranch: Expr, elseBranch: Expr)
    | While(cond: Expr, body: Expr)
    | Call(fn: string, args: seq<Expr>)

  /** What `get_type` can return: one of the classes int, float, str, bool,
      NoneType; the Python None that `get_binop_type` and `get_if_type` yield
      when no rule applies (NoType); or, from the fallback branch of
      `get_type` on a `not` or `print` node, that node's operand expression
      itself (Unresolved). */
  datatype Type =
    | IntType
    | FloatType
    | StrType
    | BoolType
    | NoneType
    | NoType
    | Unresolved(operand: Expr)

  /** `type(v)` */
  function ValueType(v: Value): (t: Type)
    ensures t != NoType && !t.Unresolved?
  {
    match v
    case Int(_) => IntType
    case Float(_) => FloatType
    case Str(_) => StrType
    case Bool(_) => BoolType
    case NoneValue => NoneType
  }

  /** One error per Python exception kind the interpreter raises, plus two
      that belong to the model: running out of fuel, and reaching float
      behaviour that is not modelled. */
  datatype Error =
    | LookupError
    | RuntimeError
    | TypeError
    | NameError
    | ValueError
    | KeyError
    | ZeroDivisionError
    | OutOfFuel
    | NotModelled

  datatype Result<T> = Ok(value: T) | Err(error: Error)
}

/** The parser's semantic actions that build or rewrite syntax trees before
    anything is evaluated: `p_expression_binop`, `p_expression_semicolon`,
    `p_expression_convert`, `p_type`, `p_args` and `p_call_args` of
    repl.py, as functions of their already-parsed operands. A bare literal
    operand is the raw Python value the token rules produce; every other
    operand is a node tuple. */
module ParserActions {
  import opened Ast
  import opened PyOps
  import opened Scopes
  import opened Typer
  import opened Eval
  import opened EvalFacts

  // ----- p_expression_binop -----

  /** `val == k` on an operand of `p_expression_binop`, for an int k: a
      node tuple never equals an int, a bare literal compares as a Python
      value, so 0 also matches 0.0 and False, and 1 matches 1.0 and True. */
  predicate OperandEquals(e: Expr, k: int)
  {
    e.Lit? && PyEq(e.v, Int(k))
  }

  /** The algebraic simplifications of `p_expression_binop`, tried in the
      source's order: `0 + e` and `1 * e` give e; `e + 0`, `e - 0`, `e * 1`
      and `e / 1` give e; `2 * e` and `e * 2` give `e + e`; anything else is
      the plain binop node. */
  function SimplifyBinop(l: Expr, op: Op, r: Expr): (e: Expr)
    ensures e in {l, r, Binop(l, op, r), Binop(l, Add, l), Binop(r, Add, r)}
    ensures op == Pow || IsComparison(op) ==> e == Binop(l, op, r)
  {
    if (OperandEquals(l, 0) && op == Add) || (OperandEquals(l, 1) && op == Mul) then r
    else if (OperandEquals(r, 0) && (op == Add || op == Sub)) || (OperandEquals(r, 1) && (op == Mul || op == Div)) then l
    else if OperandEquals(l, 2) && op == Mul then Binop(r, Add, r)
    else if OperandEquals(r, 2) && op == Mul then Binop(l, Add, l)
    else Binop(l, op, r)
  }

  /** `0 + e` and `1 * e` on numbers (bool counts as one): the Python value
      is e's, and the very same int when both operands are ints. */
  lemma LeftIdentityKeepsValue(a: Value, op: Op, b: Value)
    requires IsNum(a) && IsNum(b)
    requires (PyEq(a, Int(0)) && op == Add) || (PyEq(a, Int(1)) && op == Mul)
    ensures ApplyOp(a, op, b).Ok? && PyEq(ApplyOp(a, op, b).value, b)
    ensures a.Int? && b.Int? ==> ApplyOp(a, op, b) == Ok(b)
  {
  }

  /** `e + 0`, `e - 0`, `e * 1` and `e / 1` on numbers: the Python value is
      e's, and the very same int for ints except under `/`, which always
      yields a float. */
  lemma RightIdentityKeepsValue(a: Value, op: Op, b: Value)
    requires IsNum(a) && IsNum(b)
    requires (PyEq(b, Int(0)) && (op == Add || op == Sub)) || (PyEq(b, Int(1)) && (op == Mul || op == Div))
    ensures ApplyOp(a, op, b).Ok? && PyEq(ApplyOp(a, op, b).value, a)
    ensures a.Int? && b.Int? && op != Div ==> ApplyOp(a, op, b) == Ok(a)
  {
    var x := AsReal(a);
    if op == Div {
      assert AsReal(b) == 1.0 && x / 1.0 == x;
    } else if op == Mul {
      assert AsReal(b) == 1.0 && x * 1.0 == x;
      assert IsIntLike(b) ==> AsInt(b) == 1;
    } else {
      assert AsReal(b) == 0.0;
      assert IsIntLike(b) ==> AsInt(b) == 0;
    }
  }

  /** Between two numeric literals, whichever identity rewrite fires keeps
      the Python value of the operation, and between two ints other than
      `/` it keeps the class too. */
  lemma IdentityRewriteKeepsValue(a: Value, op: Op, b: Value)
    requires IsNum(a) && IsNum(b)
    requires SimplifyBinop(Lit(a), op, Lit(b)).Lit?
    ensures ApplyOp(a, op, b).Ok?
    ensures PyEq(ApplyOp(a, op, b).value, SimplifyBinop(Lit(a), op, Lit(b)).v)
    ensures a.Int? && b.Int? && op != Div ==> ApplyOp(a, op, b) == Ok(SimplifyBinop(Lit(a), op, Lit(b)).v)
  {
    if (PyEq(a, Int(0)) && op == Add) || (PyEq(a, Int(1)) && op == Mul) {
      LeftIdentityKeepsValue(a, op, b);
    } else {
      RightIdentityKeepsValue(a, op, b);
    }
  }

  /** The doubling rewrite `2 * e` into `e + e` keeps the result exactly
      when the 2 is the int 2 and e is a string or an int other than 1 (for
      which the `e * 1` rule fires first). */
  lemma DoublingRewriteKeepsResult(x: Value)
    requires x.Str? || (x.Int? && x.i != 1)
    ensures SimplifyBinop(Lit(Int(2)), Mul, Lit(x)) == Binop(Lit(x), Add, Lit(x))
    ensures ApplyOp(Int(2), Mul, x) == ApplyOp(x, Add, x)
  {
    if x.Str? {
      assert Repeat(x.s, 0) == [];
      assert Repeat(x.s, 1) == x.s;
      assert Repeat(x.s, 2) == x.s + x.s;
    }
  }

  /** A float 2 also triggers the doubling rewrite, which then changes the
      class of the result (`2.0 * 3` is 6.0, `3 + 3` is 6) and turns a
      TypeError (`2.0 * "ab"`) into a string. */
  lemma FloatTwoDoublingDiffers()
    ensures SimplifyBinop(Lit(Float(2.0)), Mul, Lit(Int(3))) == Binop(Lit(Int(3)), Add, Lit(Int(3)))
    ensures ApplyOp(Float(2.0), Mul, Int(3)) == Ok(Float(6.0))
    ensures ApplyOp(Int(3), Add, Int(3)) == Ok(Int(6))
    ensures SimplifyBinop(Lit(Float(2.0)), Mul, Lit(Str("ab"))) == Binop(Lit(Str("ab")), Add, Lit(Str("ab")))
    ensures ApplyOp(Float(2.0), Mul, Str("ab")) == Err(TypeError)
    ensures ApplyOp(Str("ab"), Add, Str("ab")) == Ok(Str("abab"))
  {
    assert "ab" + "ab" == "abab";
  }

  /** The rewrites run before any type check, so `"a" + 0`, which the
      evaluator refuses with TypeError, parses to the bare string "a". */
  lemma ZeroRewriteHidesTypeError(fuel: nat, sc: nat, st: State)
    requires Valid(st) && sc < |st.frames| && fuel >= 1
    ensures Evaluate(fuel, Binop(Lit(Str("a")), Add, Lit(Int(0))), sc, st) == (Err(TypeError), st)
    ensures SimplifyBinop(Lit(Str("a")), Add, Lit(Int(0))) == Lit(Str("a"))
    ensures Evaluate(fuel, Lit(Str("a")), sc, st) == (Ok(Str("a")), st)
  {
    assert !AreNumbers(StrType, IntType);
    BinopRejectedBeforeOperands(fuel, sc, st, Lit(Str("a")), Add, Lit(Int(0)), StrType, IntType);
  }

  // ----- p_expression_semicolon -----

  /** The node kinds `p_expression_semicolon` regards as free of side
      effects. */
  predicate ElidedKind(e: Expr)
  {
    e.Binop? || e.Uminus? || e.Name? || e.Convert?
  }

  /** `first; second`: a first part that is a bare literal (not a tuple) or
      of an elided kind is dropped; otherwise both form a sequence node. */
  function SequenceNode(first: Expr, second: Expr): (e: Expr)
    ensures e == second || e == Sequence(first, second)
  {
    if first.Lit? || ElidedKind(first) then second else Sequence(first, second)
  }

  /** Dropping a literal first part is invisible: the sequence and the
      second part alone give the same outcome and state (one step of fuel
      apart). */
  lemma LiteralElisionKeepsMeaning(fuel: nat, v: Value, b: Expr, sc: nat, st: State)
    requires Valid(st) && sc < |st.frames| && fuel >= 2
    ensures SequenceNode(Lit(v), b) == b
    ensures Evaluate(fuel, Sequence(Lit(v), b), sc, st) == Evaluate(fuel - 1, SequenceNode(Lit(v), b), sc, st)
  {
    assert Evaluate(fuel - 1, Lit(v), sc, st) == (Ok(v), st);
    SequenceStep(fuel, Lit(v), b, sc, st);
  }

  /** A sequence whose first part fails stops there with that error. */
  lemma SequenceStops(fuel: nat, a: Expr, b: Expr, sc: nat, st: State)
    requires Valid(st) && sc < |st.frames| && fuel >= 1
    requires Evaluate(fuel - 1, a, sc, st).0.Err?
    ensures Evaluate(fuel, Sequence(a, b), sc, st) == Evaluate(fuel - 1, a, sc, st)
  {
  }

  /** Dropping a name is not invisible: reading an undeclared name raises
      LookupError, which the elided program never sees. */
  lemma NameElisionHidesLookupError(fuel: nat, x: string, b: Expr, sc: nat, st: State)
    requires Valid(st) && sc < |st.frames| && fuel >= 2
    requires LookupValue(st.frames, sc, x).Err?
    ensures SequenceNode(Name(x), b) == b
    ensures Evaluate(fuel, Sequence(Name(x), b), sc, st) == (Err(LookupError), st)
  {
    SequenceStops(fuel, Name(x), b, sc, st);
  }

  /** Nor is dropping a binop: `1 / 0; b` raises ZeroDivisionError, while
      the elided program runs b. */
  lemma BinopElisionHidesDivisionByZero(fuel: nat, b: Expr, sc: nat, st: State)
    requires Valid(st) && sc < |st.frames| && fuel >= 3
    ensures SequenceNode(Binop(Lit(Int(1)), Div, Lit(Int(0))), b) == b
    ensures Evaluate(fuel, Sequence(Binop(Lit(Int(1)), Div, Lit(Int(0))), b), sc, st) == (Err(ZeroDivisionError), st)
  {
    assert AreNumbers(IntType, IntType);
    BinopLiterals(fuel - 1, sc, st, Int(1), Div, Int(0));
    SequenceStops(fuel, Binop(Lit(Int(1)), Div, Lit(Int(0))), b, sc, st);
  }

  // ----- p_expression_convert and p_type -----

  /** `s.lstrip(chars)`: s without its longest prefix of characters from
      chars. */
  function LStrip(s: string, chars: set<char>): (r: string)
    ensures |r| <= |s|
  {
    if |s| > 0 && s[0] in chars then LStrip(s[1..], chars) else s
  }

  /** What `lstrip` removes is a prefix made only of characters from chars,
      and it stops at the first character outside chars. */
  lemma {:induction false} LStripDropsLongestPrefix(s: string, chars: set<char>)
    ensures var r := LStrip(s, chars);
            && r == s[|s| - |r|..]
            && (forall i :: 0 <= i < |s| - |r| ==> s[i] in chars)
            && (r == [] || r[0] !in chars)
  {
    if |s| > 0 && s[0] in chars {
      LStripDropsLongestPrefix(s[1..], chars);
      var r := LStrip(s, chars);
      assert forall i :: 1 <= i < |s| - |r| ==> s[1..][i - 1] == s[i];
    }
  }

  /** The `str_to_type` dict; a missing key is None. */
  function StrToType(name: string): (t: Option<Type>)
    ensures t.Some? ==> IsClass(t.value) && t.value != NoneType
  {
    if name == "int" then Some(IntType)
    else if name == "float" then Some(FloatType)
    else if name == "str" then Some(StrType)
    else if name == "bool" then Some(BoolType)
    else None
  }

  /** The spelling of a class in the language, the key `str_to_type` maps
      back to it. */
  function TypeName(t: Type): string
    requires IsClass(t) && t != NoneType
  {
    match t
    case IntType => "int"
    case FloatType => "float"
    case StrType => "str"
    case BoolType => "bool"
  }

  /** `p_type`: a type keyword to its class, KeyError for any other word. */
  function TypeNode(word: string): (r: Result<Type>)
    ensures r.Ok? <==> word in {"int", "float", "str", "bool"}
    ensures r.Ok? ==> IsClass(r.value) && r.value != NoneType
    ensures r.Err? ==> r.error == KeyError
  {
    match StrToType(word)
    case Some(t) => Ok(t)
    case None => Err(KeyError)
  }

  /** `p_expression_convert`: the keyword loses its leading 't' and 'o'
      characters and the rest is looked up in `str_to_type`. */
  function ConvertNode(keyword: string, e: Expr): (r: Result<Expr>)
    ensures r.Ok? ==> r.value.Convert? && r.value.keyword == keyword && r.value.operand == e
                      && IsClass(r.value.target) && r.value.target != NoneType
    ensures r.Err? ==> r.error == KeyError
  {
    match StrToType(LStrip(keyword, {'t', 'o'}))
    case Some(t) => Ok(Convert(t, keyword, e))
    case None => Err(KeyError)
  }

  /** The type keywords and `str_to_type` are inverse. */
  lemma TypeNodeRoundTrip(t: Type, word: string)
    requires IsClass(t) && t != NoneType
    ensures TypeNode(TypeName(t)) == Ok(t)
    ensures TypeNode(word).Ok? ==> TypeName(TypeNode(word).value) == word
  {
  }

  /** Each conversion keyword `to<name>` of the lexer converts to the class
      `name` spells: the stripped prefix never eats into the class name,
      whose first letter is neither 't' nor 'o'. */
  lemma ConvertKeywordRoundTrip(t: Type, e: Expr)
    requires IsClass(t) && t != NoneType
    ensures ConvertNode("to" + TypeName(t), e) == Ok(Convert(t, "to" + TypeName(t), e))
  {
    var name := TypeName(t);
    var k := "to" + name;
    var c := {'t', 'o'};
    assert k[0] in c && k[1..] == "o" + name;
    assert LStrip(k, c) == LStrip("o" + name, c);
    assert ("o" + name)[0] in c && ("o" + name)[1..] == name;
    assert LStrip("o" + name, c) == LStrip(name, c);
    assert name[0] !in c;
  }

  /** Conversely, a keyword the dict does not know after stripping raises
      KeyError; `tofoo` is one. */
  lemma UnknownConvertKeyword(e: Expr)
    ensures ConvertNode("tofoo", e) == Err(KeyError)
  {
    var k := "tofoo";
    assert k[0] == 't' && k[1..] == "ofoo";
    assert "ofoo"[0] == 'o' && "ofoo"[1..] == "foo";
    assert "foo"[0] == 'f';
    assert LStrip("foo", {'t', 'o'}) == "foo";
  }

  // ----- p_args and p_call_args -----

  /** A derivation of the `args` nonterminal: `empty`, or `type NAME args`. */
  datatype ArgsTree = NoArgs | MoreArgs(t: Type, name: string, rest: ArgsTree)

  /** `p_args`: the (type, name) pairs in order. */
  function ParamList(d: ArgsTree): (ps: seq<(Type, string)>)
    ensures d.MoreArgs? ==> |ps| > 0 && ps[0] == (d.t, d.name)
  {
    match d
    case NoArgs => []
    case MoreArgs(t, x, rest) => [(t, x)] + ParamList(rest)
  }

  /** The one derivation of a parameter list. */
  function ArgsTreeOf(ps: seq<(Type, string)>): ArgsTree
  {
    if |ps| == 0 then NoArgs else MoreArgs(ps[0].0, ps[0].1, ArgsTreeOf(ps[1..]))
  }

  /** `p_args` loses nothing: derivations and parameter lists correspond
      one to one. */
  lemma {:induction false} ParamListRoundTrip(d: ArgsTree, ps: seq<(Type, string)>)
    ensures ParamList(ArgsTreeOf(ps)) == ps
    ensures ArgsTreeOf(ParamList(d)) == d
    decreases |ps| + |ParamList(d)|
  {
    if |ps| > 0 {
      ParamListRoundTrip(NoArgs, ps[1..]);
    }
    if d.MoreArgs? {
      ParamListRoundTrip(d.rest, []);
      assert ParamList(d)[1..] == ParamList(d.rest);
    }
  }

  /** A derivation of `call_args`: `empty`, `expression`, or
      `expression ',' call_args`. */
  datatype CallArgsTree = NoCallArgs | LastArg(e: Expr) | ArgThen(e: Expr, rest: CallArgsTree)

  /** `p_call_args`: the argument expressions in order. */
  function ArgList(d: CallArgsTree): (es: seq<Expr>)
    ensures d.NoCallArgs? <==> |es| == 0
    ensures !d.NoCallArgs? ==> es[0] == d.e
  {
    match d
    case NoCallArgs => []
    case LastArg(e) => [e]
    case ArgThen(e, rest) => [e] + ArgList(rest)
  }

  /** The derivation without a trailing comma. */
  function CallArgsTreeOf(es: seq<Expr>): CallArgsTree
  {
    if |es| == 0 then NoCallArgs
    else if |es| == 1 then LastArg(es[0])
    else ArgThen(es[0], CallArgsTreeOf(es[1..]))
  }

  /** Every argument list has a derivation `p_call_args` maps back to it. */
  lemma {:induction false} ArgListRoundTrip(es: seq<Expr>)
    ensures ArgList(CallArgsTreeOf(es)) == es
  {
    if |es| > 1 {
      ArgListRoundTrip(es[1..]);
    }
  }

  /** The grammar accepts a trailing comma, so `p_call_args` is not one to
      one: `f(a,)` and `f(a)` give the same list. */
  lemma TrailingCommaIgnored(e: Expr)
    ensures ArgThen(e, NoCallArgs) != LastArg(e)
    ensures ArgList(ArgThen(e, NoCallArgs)) == ArgList(LastArg(e))
  {
  }

  /** `p_expression_call`: the call node over the argument list. */
  function CallNode(name: string, d: CallArgsTree): (e: Expr)
    ensures e.Call? && e.fn == name && |e.args| == |ArgList(d)|
  {
    Call(name, ArgList(d))
  }
}

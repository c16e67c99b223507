/** Python's behaviour on the interpreter's values: truthiness, `==`, the
    binary and unary operators `eval_binop` and `eval_uminus` apply, and the
    class calls int(), float(), str(), bool() of `eval_convert` and
    `eval_call`. A Python exception becomes an `Err`. */
module PyOps {
  import opened Ast

  /** `bool(v)` */
  function Truthy(v: Value): (r: bool)
    ensures !r <==> v in {Int(0), Float(0.0), Str(""), Bool(false), NoneValue}
  {
    match v
    case Int(i) => i != 0
    case Float(r) => r != 0.0
    case Str(s) => |s| > 0
    case Bool(b) => b
    case NoneValue => false
  }

  /** bool is a subclass of int in Python: True and False take part in
      arithmetic as 1 and 0. */
  predicate IsIntLike(v: Value) { v.Int? || v.Bool? }

  predicate IsNum(v: Value) { v.Int? || v.Bool? || v.Float? }

  function AsInt(v: Value): int
    requires IsIntLike(v)
  {
    if v.Int? then v.i else if v.b then 1 else 0
  }

  function AsReal(v: Value): real
    requires IsNum(v)
  {
    if v.Float? then v.r else AsInt(v) as real
  }

  /** Python `a == b` on two values: numbers compare by value across int,
      float and bool; strings by content; None equals only None. */
  function PyEq(a: Value, b: Value): (r: bool)
    ensures a == b ==> r
  {
    if IsNum(a) && IsNum(b) then AsReal(a) == AsReal(b)
    else if a.Str? && b.Str? then a.s == b.s
    else a.NoneValue? && b.NoneValue?
  }

  lemma PyEqSymmetric(a: Value, b: Value)
    ensures PyEq(a, b) == PyEq(b, a)
  {
  }

  /** Python's lexicographic order on strings, by code point. */
  function StrLess(x: string, y: string): bool
  {
    if |x| == 0 then |y| > 0
    else if |y| == 0 then false
    else if x[0] != y[0] then x[0] < y[0]
    else StrLess(x[1..], y[1..])
  }

  lemma {:induction false} StrLessIrreflexive(x: string)
    ensures !StrLess(x, x)
  {
    if |x| > 0 {
      assert x[1..] == x[1..];
      StrLessIrreflexive(x[1..]);
    }
  }

  lemma {:induction false} StrLessAsymmetric(x: string, y: string)
    ensures StrLess(x, y) ==> !StrLess(y, x)
  {
    if |x| > 0 && |y| > 0 && x[0] == y[0] {
      StrLessAsymmetric(x[1..], y[1..]);
    }
  }

  /** `s * n` for a string and an int: n copies, none when n <= 0. */
  function Repeat(s: string, n: int): (r: string)
    ensures |r| == if n <= 0 then 0 else n * |s|
    decreases n
  {
    if n <= 0 then [] else s + Repeat(s, n - 1)
  }

  /** `s * (a + b) == s * a + s * b` for non-negative counts, and `s * 1 == s`:
      the result is the copies of s laid end to end. */
  lemma {:induction false} RepeatAdd(s: string, a: nat, b: nat)
    ensures Repeat(s, a + b) == Repeat(s, a) + Repeat(s, b)
    ensures Repeat(s, 1) == s
    decreases a
  {
    if a > 0 {
      RepeatAdd(s, a - 1, b);
      assert Repeat(s, a + b) == s + Repeat(s, a - 1 + b);
    }
    assert Repeat(s, 1) == s + [];
  }

  function IntPow(base: int, e: nat): int
  {
    if e == 0 then 1 else base * IntPow(base, e - 1)
  }

  lemma {:induction false} IntPowNonZero(base: int, e: nat)
    requires base != 0
    ensures IntPow(base, e) != 0
  {
    if e > 0 {
      IntPowNonZero(base, e - 1);
    }
  }

  function Add(a: Value, b: Value): Result<Value>
  {
    if IsIntLike(a) && IsIntLike(b) then Ok(Int(AsInt(a) + AsInt(b)))
    else if IsNum(a) && IsNum(b) then Ok(Float(AsReal(a) + AsReal(b)))
    else if a.Str? && b.Str? then Ok(Str(a.s + b.s))
    else Err(TypeError)
  }

  function Sub(a: Value, b: Value): Result<Value>
  {
    if IsIntLike(a) && IsIntLike(b) then Ok(Int(AsInt(a) - AsInt(b)))
    else if IsNum(a) && IsNum(b) then Ok(Float(AsReal(a) - AsReal(b)))
    else Err(TypeError)
  }

  function Mul(a: Value, b: Value): Result<Value>
  {
    if IsIntLike(a) && IsIntLike(b) then Ok(Int(AsInt(a) * AsInt(b)))
    else if IsNum(a) && IsNum(b) then Ok(Float(AsReal(a) * AsReal(b)))
    else if a.Str? && IsIntLike(b) then Ok(Str(Repeat(a.s, AsInt(b))))
    else if IsIntLike(a) && b.Str? then Ok(Str(Repeat(b.s, AsInt(a))))
    else Err(TypeError)
  }

  /** True division: always a float; a zero divisor raises. */
  function Div(a: Value, b: Value): Result<Value>
  {
    if IsNum(a) && IsNum(b) then
      if AsReal(b) == 0.0 then Err(ZeroDivisionError)
      else Ok(Float(AsReal(a) / AsReal(b)))
    else Err(TypeError)
  }

  /** `a ** b`: an int for a non-negative int exponent, a float for a
      negative one; powers involving a float are not modelled. */
  function Pow(a: Value, b: Value): Result<Value>
  {
    if IsIntLike(a) && IsIntLike(b) then
      if AsInt(b) >= 0 then Ok(Int(IntPow(AsInt(a), AsInt(b))))
      else if AsInt(a) == 0 then Err(ZeroDivisionError)
      else
        IntPowNonZero(AsInt(a), -AsInt(b));
        Ok(Float(1.0 / (IntPow(AsInt(a), -AsInt(b)) as real)))
    else if IsNum(a) && IsNum(b) then Err(NotModelled)
    else Err(TypeError)
  }

  /** `a < b`: numbers by value, strings lexicographically, anything else
      raises TypeError. */
  function Less(a: Value, b: Value): Result<Value>
  {
    if IsNum(a) && IsNum(b) then Ok(Bool(AsReal(a) < AsReal(b)))
    else if a.Str? && b.Str? then Ok(Bool(StrLess(a.s, b.s)))
    else Err(TypeError)
  }

  /** The arithmetic and comparison of `eval_binop` (repl.py:488-506). */
  function ApplyOp(a: Value, op: Op, b: Value): (r: Result<Value>)
    ensures r.Err? ==> r.error == TypeError || r.error == ZeroDivisionError || r.error == NotModelled
    ensures op == Eq || op == Ne ==> r.Ok?
    ensures (op == Eq || op == Ne || op == Gt || op == Lt) && r.Ok? ==> r.value.Bool?
    ensures IsNum(a) && IsNum(b) && op == Gt ==> r == Ok(Bool(AsReal(a) > AsReal(b)))
    ensures IsNum(a) && IsNum(b) && op == Lt ==> r == Ok(Bool(AsReal(a) < AsReal(b)))
    ensures IsIntLike(a) && IsIntLike(b) && (op == Op.Add || op == Op.Sub || op == Op.Mul) ==> r.Ok? && r.value.Int?
    ensures op == Op.Div && r.Ok? ==> r.value.Float?
  {
    match op
    case Add => Add(a, b)
    case Sub => Sub(a, b)
    case Mul => Mul(a, b)
    case Div => Div(a, b)
    case Pow => Pow(a, b)
    case Eq => Ok(Bool(PyEq(a, b)))
    case Ne => Ok(Bool(!PyEq(a, b)))
    case Gt => Less(b, a)
    case Lt => Less(a, b)
  }

  /** `-v` */
  function Negate(v: Value): (r: Result<Value>)
    ensures r.Ok? <==> IsNum(v)
    ensures r.Ok? ==> IsNum(r.value) && AsReal(r.value) == -AsReal(v)
  {
    if IsIntLike(v) then Ok(Int(-AsInt(v)))
    else if v.Float? then Ok(Float(-v.r))
    else Err(TypeError)
  }

  // ----- int() and str() on strings and ints -----

  predicate IsDigit(c: char) { '0' <= c <= '9' }

  function DigitValue(c: char): nat
    requires IsDigit(c)
  {
    (c as int) - ('0' as int)
  }

  function DigitChar(d: nat): (c: char)
    requires d < 10
    ensures IsDigit(c) && DigitValue(c) == d
  {
    ('0' as int + d) as char
  }

  predicate AllDigits(s: string)
  {
    forall k | 0 <= k < |s| :: IsDigit(s[k])
  }

  /** The number a string of decimal digits denotes. */
  function DigitsValue(s: string): nat
    requires AllDigits(s)
  {
    if |s| == 0 then 0 else 10 * DigitsValue(s[..|s| - 1]) + DigitValue(s[|s| - 1])
  }

  /** The decimal digits of n, without leading zeros. */
  function NatToStr(n: nat): (s: string)
    ensures |s| > 0 && AllDigits(s)
  {
    if n < 10 then [DigitChar(n)] else NatToStr(n / 10) + [DigitChar(n % 10)]
  }

  /** `str(i)` for an int. */
  function IntToStr(i: int): (s: string)
    ensures |s| > 0
  {
    if i < 0 then "-" + NatToStr(-i) else NatToStr(i)
  }

  /** Python's `str.isspace()`, the set `int()` strips: the ASCII controls
      9 to 13 and 28 to 31, the space, and the Unicode separators. */
  predicate IsSpace(c: char)
  {
    var k := c as int;
    (9 <= k <= 13) || (28 <= k <= 32) || k == 0x85 || k == 0xA0 || k == 0x1680
    || (0x2000 <= k <= 0x200A) || k == 0x2028 || k == 0x2029 || k == 0x202F
    || k == 0x205F || k == 0x3000
  }

  /** `s.strip()`: white space removed from both ends. */
  function Strip(s: string): (t: string)
    ensures |t| > 0 ==> !IsSpace(t[0]) && !IsSpace(t[|t| - 1])
    decreases |s|
  {
    if |s| > 0 && IsSpace(s[0]) then Strip(s[1..])
    else if |s| > 0 && IsSpace(s[|s| - 1]) then Strip(s[..|s| - 1])
    else s
  }

  /** `int(s)` for a string: surrounding white space, an optional sign and
      one or more decimal digits; None where Python raises ValueError. */
  function ParseInt(s: string): (r: Option<int>)
    ensures |s| > 0 && AllDigits(s) ==> r == Some(DigitsValue(s))
    ensures Strip(s) == [] ==> r.None?
    ensures r.Some? && r.value < 0 ==> Strip(s)[0] == '-'
  {
    var t := Strip(s);
    if |t| > 0 && (t[0] == '-' || t[0] == '+') then
      if |t| > 1 && AllDigits(t[1..]) then
        Some(if t[0] == '-' then -(DigitsValue(t[1..]) as int) else DigitsValue(t[1..]))
      else None
    else if |t| > 0 && AllDigits(t) then Some(DigitsValue(t))
    else None
  }

  /** Python's int() of a float truncates toward zero. */
  function Trunc(r: real): int
  {
    if r >= 0.0 then r.Floor else -((-r).Floor)
  }

  /** `to(val)` for the classes int, float, str and bool; calling anything
      else raises TypeError. A ValueError of int() is reported as TypeError,
      as both callers do. */
  function ConvertTo(to: Type, v: Value): (r: Result<Value>)
    ensures r.Ok? ==> ValueType(r.value) == to
    ensures r.Err? ==> r.error == TypeError || r.error == NotModelled
  {
    match to
    case IntType =>
      (match v
       case Int(_) => Ok(v)
       case Bool(b) => Ok(Int(if b then 1 else 0))
       case Float(r) => Ok(Int(Trunc(r)))
       case Str(s) => (match ParseInt(s) case Some(n) => Ok(Int(n)) case None => Err(TypeError))
       case NoneValue => Err(TypeError))
    case FloatType =>
      (match v
       case Int(i) => Ok(Float(i as real))
       case Bool(b) => Ok(Float(if b then 1.0 else 0.0))
       case Float(_) => Ok(v)
       case Str(_) => Err(NotModelled)
       case NoneValue => Err(TypeError))
    case StrType =>
      (match v
       case Int(i) => Ok(Str(IntToStr(i)))
       case Bool(b) => Ok(Str(if b then "True" else "False"))
       case Str(_) => Ok(v)
       case Float(_) => Err(NotModelled)
       case NoneValue => Ok(Str("None")))
    case BoolType => Ok(Bool(Truthy(v)))
    case _ => Err(TypeError)
  }

  // ----- round trips between int() and str() -----

  lemma {:induction false} DigitsValueAppend(s: string, c: char)
    requires AllDigits(s) && IsDigit(c)
    ensures AllDigits(s + [c]) && DigitsValue(s + [c]) == 10 * DigitsValue(s) + DigitValue(c)
  {
    var t := s + [c];
    assert t[..|t| - 1] == s;
  }

  lemma {:induction false} NatToStrValue(n: nat)
    ensures DigitsValue(NatToStr(n)) == n
  {
    if n >= 10 {
      NatToStrValue(n / 10);
      DigitsValueAppend(NatToStr(n / 10), DigitChar(n % 10));
    }
  }

  lemma {:induction false} NatToStrNoSpace(n: nat)
    ensures !IsSpace(NatToStr(n)[0]) && !IsSpace(NatToStr(n)[|NatToStr(n)| - 1])
    ensures NatToStr(n)[0] != '-' && NatToStr(n)[0] != '+'
  {
    var s := NatToStr(n);
    assert IsDigit(s[0]) && IsDigit(s[|s| - 1]);
  }

  lemma StripUnchanged(s: string)
    requires |s| > 0 && !IsSpace(s[0]) && !IsSpace(s[|s| - 1])
    ensures Strip(s) == s
  {
  }

  /** `int(str(n)) == n` for every int n. */
  lemma IntStrRoundTrip(n: int)
    ensures ParseInt(IntToStr(n)) == Some(n)
  {
    var s := IntToStr(n);
    if n < 0 {
      NatToStrNoSpace(-n);
      NatToStrValue(-n);
      assert s[1..] == NatToStr(-n);
    } else {
      NatToStrNoSpace(n);
      NatToStrValue(n);
    }
    StripUnchanged(s);
  }

  /** toint(tostr(n)) gives back the int n. */
  lemma ToIntToStrRoundTrip(n: int)
    ensures ConvertTo(StrType, Int(n)) == Ok(Str(IntToStr(n)))
    ensures ConvertTo(IntType, Str(IntToStr(n))) == Ok(Int(n))
  {
    IntStrRoundTrip(n);
  }

  /** tostr(toint("7")) gives back "7". */
  lemma ToStrToIntSeven()
    ensures ConvertTo(IntType, Str("7")) == Ok(Int(7))
    ensures ConvertTo(StrType, Int(7)) == Ok(Str("7"))
  {
    assert Strip("7") == "7";
    assert AllDigits("7");
  }

  /** `int()` strips every Python white-space character around the digits,
      the ASCII separator U+001C and the no-break space included, and a
      string of white space alone is not an int. */
  lemma IntStripsPythonWhiteSpace()
    ensures ConvertTo(IntType, Str("\U{1C}7")) == Ok(Int(7))
    ensures ConvertTo(IntType, Str("\U{A0}-12\t")) == Ok(Int(-12))
    ensures ConvertTo(IntType, Str("\U{1F}")) == Err(TypeError)
  {
    IntStripsSeparator();
    IntStripsNoBreakSpace();
    IntOfSeparatorFails();
  }

  /** `int('\x1c7')` is 7. */
  lemma IntStripsSeparator()
    ensures ParseInt("\U{1C}7") == Some(7)
  {
    assert "\U{1C}7" == ['\U{1C}'] + "7";
    StripLeadingSpace('\U{1C}', "7");
  }

  /** `int('\xa0-12\t')` is -12. */
  lemma IntStripsNoBreakSpace()
    ensures ParseInt("\U{A0}-12\t") == Some(-12)
  {
    assert "\U{A0}-12\t" == ['\U{A0}'] + ("-12" + ['\t']);
    StripLeadingSpace('\U{A0}', "-12\t");
    StripTrailingSpace("-12", '\t');
    assert "-12"[1..] == "12" && AllDigits("12");
    assert DigitsValue("12") == 10 * DigitsValue("1") + 2;
  }

  /** `int('\x1f')` raises ValueError. */
  lemma IntOfSeparatorFails()
    ensures ParseInt("\U{1F}") == None
  {
    assert "\U{1F}" == ['\U{1F}'] + "";
    StripLeadingSpace('\U{1F}', "");
  }

  /** A leading white-space character is stripped. */
  lemma StripLeadingSpace(c: char, s: string)
    requires IsSpace(c)
    ensures Strip([c] + s) == Strip(s)
  {
    assert ([c] + s)[1..] == s;
  }

  /** A trailing white-space character is stripped. */
  lemma StripTrailingSpace(s: string, c: char)
    requires IsSpace(c) && (|s| == 0 || !IsSpace(s[0]))
    ensures Strip(s + [c]) == Strip(s)
  {
    assert (s + [c])[..|s|] == s;
  }
}

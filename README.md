# REPLang interpreter core and Markdown lexer, modelled in Dafny

REPLang is a small, statically typed expression language with a REPL. Its
interpreter is a single Python module, `repl.py`, built on PLY. This project
models the interpreter's core in Dafny:

- **Scopes** (module `Scopes`). A `Scope` has a parent link, a `types` dict
  and a `values` dict. The model keeps every scope ever created in an arena
  (`seq<Frame>`) and represents a scope by its index; frame 0 is
  `global_scope`. The module covers lookup through the parent chain, plus
  `declare` and `assign` on a frame.
- **The typer** (module `Typer`). It covers `get_type`, `get_binop_type`,
  `get_if_type`, `are_numbers` and `typecheck_binop`. These return a Python
  class, or `None` when no rule applies. Type comparison is Python `!=` on
  what `get_type` returns.
- **Python operators** (module `PyOps`). These are the built-in operations
  the evaluator relies on: `+ - * / ** == != < >` on int, float, bool and
  str, unary minus, truthiness, and the conversions `int(x)`, `float(x)`,
  `str(x)` and `bool(x)`.
- **The evaluator** (module `Eval`). It covers `evaluate`, every `eval_*`
  function and `Scope.declare`/`Scope.assign`. These are written as
  functions from an explicit interpreter state to a result and the new
  state. The state holds the arena, the four function registries
  (`functions`, `function_types`, `arguments`, `function_scopes`) and the
  values `print` has written. Every Python exception the code raises is an
  `Err` with the exception's class (`LookupError`, `TypeError`,
  `RuntimeError`, `NameError`, `ValueError`, `ZeroDivisionError`, …).
- **Function definition** (module `Registry`). This is `p_statement_def`:
  it registers a function and declares its parameters in a fresh scope
  whose parent is `global_scope`.
- **The imperative interpreter** (module `Interp`, class `Interpreter`).
  The arena and the registries are fields updated in place. `declare` and
  `assign` write the frame dicts, and the `while` loop and the argument
  loops of `eval_call` are `while` loops. Every method is proved to yield
  the result and the new state that the `Eval`/`Registry` function computes
  from the old state.
- **Parser actions** (module `ParserActions`). These are the AST rewrites
  the grammar actions perform:
  - the algebraic simplifications of `p_expression_binop`;
  - the statement elision of `p_expression_semicolon`;
  - `p_type` and `p_expression_convert`, with their `str_to_type` lookup;
  - the list building of `p_args` and `p_call_args`.

The second source file, `markdown_to_html_lex.py`, is an HTML-to-Markdown
converter built as a PLY lexer with three states: INITIAL, `ol` and `ul`.
Module `MarkdownLex` models it as a token state machine over pre-split
input pieces (tags, text runs, newlines, blanks, illegal characters):

- a rule table gives each tag's token and its state change;
- `Lex` is the lexer run as a function;
- class `Lexer` is the stateful lexer object (state, line number, token
  list);
- `Convert` is the program's `''.join(token.value …)`.

## Model

| member | source | states |
|---|---|---|
| Ast.ValueType | repl.py:185-186 | `type(v)` of a runtime value is always a concrete class, never a type that only the typer produces |
| PyOps.PyEq | repl.py:499-502 | Python `==` on values; structurally equal values are equal |
| PyOps.PyEqSymmetric | repl.py:499-502 | Python `==` on the language's values is symmetric, so `!=` is too |
| PyOps.Truthy | repl.py:229-230 | `bool(v)` is false exactly for 0, 0.0, the empty string, False and None |
| PyOps.StrLessIrreflexive | repl.py:503-506 | string `<` (lexicographic) never holds between a string and itself |
| PyOps.StrLessAsymmetric | repl.py:503-506 | string `<` never holds in both directions |
| PyOps.Repeat | repl.py:493-494 | `s * n` has n times the length of s, and is empty when n <= 0 |
| PyOps.RepeatAdd | repl.py:493-494 | `s * (a + b)` is `s * a` followed by `s * b`, and `s * 1` is s, so `s * n` is n copies of s |
| PyOps.IntPowNonZero | repl.py:497-498 | a non-zero integer raised to a natural power is non-zero |
| PyOps.Negate | repl.py:518 | unary minus succeeds exactly on numbers and yields the numeric negation |
| PyOps.ApplyOp | repl.py:488-506 | the operators fail only with TypeError, ZeroDivisionError or a float case left out; `==` and `!=` never fail; comparisons yield bools, and on numbers compare their values; int-like `+ - *` yield ints; `/` yields a float |
| PyOps.DigitChar | repl.py:219 | the digit character of d is a digit whose value is d |
| PyOps.NatToStr | repl.py:219 | `str(n)` of a natural is a non-empty string of digits |
| PyOps.IntToStr | repl.py:219 | `str(i)` is never empty |
| PyOps.Strip | repl.py:219 | the text `int()` parses, stripped of every Python white-space character (`str.isspace`, U+001C to U+001F and the Unicode separators included), neither starts nor ends with white space |
| PyOps.ConvertTo | repl.py:215-221 | a successful `to(val)` has class `to`; failure is TypeError (the caught ValueError re-raised) or a float case left out |
| PyOps.DigitsValueAppend | repl.py:219 | appending a digit multiplies the value by ten and adds the digit |
| PyOps.NatToStrValue | repl.py:219 | reading back the digits of `str(n)` gives n |
| PyOps.NatToStrNoSpace | repl.py:219 | `str(n)` has no surrounding whitespace and no sign |
| PyOps.StripUnchanged | repl.py:219 | stripping text without surrounding whitespace changes nothing |
| PyOps.ParseInt | repl.py:219 | `int(s)` of a non-empty digit string is its decimal value; white space alone is not an int; a negative result comes from a leading minus sign |
| PyOps.IntStripsPythonWhiteSpace | repl.py:215-221 | `2int` strips U+001C, the no-break space and tab around the digits and sign, and rejects a string of white space alone |
| PyOps.IntStrRoundTrip | repl.py:219 | parsing `str(i)` as an integer gives i, for every integer i |
| PyOps.ToIntToStrRoundTrip | repl.py:215-221 | `2str` then `2int` returns the original integer, and both conversions succeed |
| PyOps.ToStrToIntSeven | repl.py:215-221 | `2int "7"` is 7 and `2str 7` is "7" |
| Scopes.LookupType | repl.py:128-133 | `get_type` fails only with LookupError, and succeeds only for names declared in the chain |
| Scopes.LookupValue | repl.py:135-140 | `get_value` fails only with LookupError |
| Scopes.IsNameDeclared | repl.py:124-125 | a name in the receiver's own `types` is declared; in a scope without parent, only those are |
| Scopes.AncestorBelow | repl.py:120-121 | a parent is always created before its child, so every ancestor has a smaller index |
| Scopes.LookupTypeIffDeclared | repl.py:125-133 | `get_type` succeeds exactly when `is_name_declared` holds |
| Scopes.DeclaredIffSomeAncestor | repl.py:125-126 | a name is declared exactly when some scope on the parent chain has it in `types` |
| Scopes.LookupTypeNearest | repl.py:128-133 | the type found is the one recorded in the nearest scope on the chain that has the name |
| Scopes.LookupValueNearest | repl.py:135-140 | the value found is the one stored in the nearest scope on the chain that has the name in `values` |
| Scopes.LookupValueIffSomeAncestor | repl.py:135-140 | `get_value` succeeds exactly when some scope on the chain has the name in `values` |
| Scopes.LookupsReadOnlyChain | repl.py:125-140 | lookups from a scope depend only on that scope and its ancestors |
| Scopes.PushWellLinked | repl.py:120-123 | creating `Scope(parent=p)` keeps every parent link pointing to an earlier scope |
| Scopes.SetType | repl.py:145 | writing a type changes no frame count and no parent link |
| Scopes.SetValue | repl.py:146 | writing a value changes no frame count and no parent link |
| Scopes.DeclareValue | repl.py:142-147 | declaring fails with RuntimeError exactly when the name is already in this scope's `types` |
| Typer.TypeEqIsEquivalence | repl.py:386 | the typer's `==` on types is reflexive and symmetric, and is identity on classes |
| Typer.TypeEq | repl.py:386 | equal types compare equal, and a comparison with a class is identity |
| Typer.AreNumbers | repl.py:463-465 | on classes, `are_numbers` holds exactly when both are `int` or `float` |
| Typer.BinopType | repl.py:450-460 | comparisons are typed bool and `/` float whatever the operands; otherwise typing fails exactly when an operand's typing fails, with that error; equal operand types give that type |
| Typer.IfType | repl.py:382-391 | typing an `if` fails exactly when a branch fails; otherwise the type equals both branch types, or is float, or None; equal branch types give that type |
| Typer.GetType | repl.py:184-206 | typing fails only with LookupError (an undeclared name) or KeyError (an unknown function) |
| Typer.TypecheckBinop | repl.py:468-477 | `==` and `!=` always pass; arithmetic that passes on two classes never has a None or bool operand |
| Typer.CheckedBinopHasClass | repl.py:450-477 | an operator that passes `typecheck_binop` on two classes gets a class from `get_binop_type` |
| Typer.BinopTypeSound | repl.py:450-506 | for checked operands, `get_binop_type` predicts the class of the value `eval_binop` computes (a negative int exponent excepted) |
| Typer.NegativePowerIsNotInt | repl.py:453-456 | `int ^ int` is typed `int`, yet `2 ^ -1` evaluates to the float 0.5 |
| Eval.Initial | repl.py:158-163 | the start state (only `global_scope`, empty registries) satisfies the state invariant |
| Eval.PushScope | repl.py:120-123 | a new scope is appended with the given parent; nothing else changes |
| Eval.Evaluate | repl.py:545-566 | evaluation keeps the invariant; it changes only the dicts of its own scope (never removing a type), adds scopes and appends output |
| Eval.EvaluateRepeatedNode | repl.py:562-564 | `while` and `call` nodes go to `eval_while` and `eval_call` |
| Eval.EvaluateOperatorNode | repl.py:562-564 | binop, uminus, not, print and convert nodes go to their `eval_*` function |
| Eval.ScopeDeclare | repl.py:142-147 | `declare` changes only the receiving scope and keeps the invariant |
| Eval.ScopeAssign | repl.py:149-156 | `assign` changes only the receiving scope and keeps the invariant |
| Eval.EvalAssign | repl.py:249-254 | `eval_assign` changes only the current scope |
| Eval.EvalDeclare | repl.py:270-274 | `eval_declare` changes only the current scope |
| Eval.EvalSequence | repl.py:362-364 | a sequence changes only the current scope |
| Eval.EvalBlock | repl.py:372-374 | a block leaves every existing scope unchanged |
| Eval.EvalIf | repl.py:394-402 | an `if` leaves every existing scope unchanged (it runs in a fresh child scope) |
| Eval.EvalWhile | repl.py:416-424 | a `while` leaves every existing scope unchanged |
| Eval.WhileLoop | repl.py:422-424 | loop iterations change only the loop's own scope |
| Eval.WhileBody | repl.py:423 | one body run changes only the loop's own scope |
| Eval.EvalBinop | repl.py:480-506 | `eval_binop` changes only the current scope |
| Eval.EvalUminus | repl.py:514-518 | `eval_uminus` changes only the current scope |
| Eval.EvalNot | repl.py:229-230 | `eval_not` changes only the current scope |
| Eval.EvalPrint | repl.py:238-241 | `eval_print` changes only the current scope and only appends output |
| Eval.EvalConvert | repl.py:215-221 | `eval_convert` changes only the current scope |
| Eval.EvalCall | repl.py:319-344 | a call leaves every existing scope and every registry unchanged |
| Eval.EvalArgs | repl.py:329-337 | the argument loop changes only the invocation scope, and yields one value per argument |
| Eval.BindParams | repl.py:339-343 | the binding loop changes only the invocation scope |
| EvalFacts.DeclareBareValue | repl.py:142-147 | declaring a bare value either fails as the frame-level declare does, or stores exactly that value |
| EvalFacts.DeclareLiteral | repl.py:142-147 | a fresh well-typed declaration records the type and the value in the current scope and yields the value |
| EvalFacts.RedeclareFails | repl.py:143-144 | redeclaring a name of the same scope is a RuntimeError with no effect |
| EvalFacts.SequenceStep | repl.py:362-364 | a sequence whose first part succeeds runs the second part in the state the first left |
| EvalFacts.DeclareTwiceFails | repl.py:143-144 | `T x = v; T x = w` fails with RuntimeError, and x keeps the first value |
| EvalFacts.BlockShadows | repl.py:372-374 | a declaration inside a block is invisible outside it, so the outer binding is unchanged |
| EvalFacts.DeclareBinds | repl.py:145-147 | after a successful declare, lookup gives the declared type and the stored value |
| EvalFacts.FailedInitialiserLeavesTypeBehind | repl.py:145-146 | if the initialiser raises, the type is already recorded without a value, so the name cannot be declared again |
| EvalFacts.AssignUndeclaredFails | repl.py:150-151 | assigning a name declared nowhere in the chain is a LookupError with no effect |
| EvalFacts.AssignWrongTypeFails | repl.py:252-253 | assigning a value of another type is a TypeError with no effect |
| EvalFacts.AssignWritesReceiverOnly | repl.py:154-155 | assignment writes the receiving scope's `values` only; every other scope and the output stay as they were |
| EvalFacts.AssignInBlockIsLost | repl.py:149-156 | an assignment inside a block writes the block's scope, so the enclosing scope's value is unchanged |
| EvalFacts.BinopRejectedBeforeOperands | repl.py:482-486 | an ill-typed operator raises TypeError before either operand is evaluated |
| EvalFacts.BinopLiterals | repl.py:488-506 | on two well-typed literals, `eval_binop` is exactly the Python operator |
| EvalFacts.BinopExamples | repl.py:489-494 | `1 + 1.5` is 2.5, and `"a" * 3` and `3 * "a"` are "aaa" |
| EvalFacts.TypeInFreshChild | repl.py:184-206 | typing in a new child scope gives the same answer as in its parent |
| EvalFacts.IfNeedsBoolCondition | repl.py:396-398 | a non-bool `if` condition is a TypeError, raised after the if-scope is created |
| EvalFacts.WhileNeedsBoolCondition | repl.py:418-419 | a non-bool `while` condition is a TypeError with no effect |
| EvalFacts.NotConditionRefused | repl.py:394-398 | `not e` is not typed `bool`, so it cannot be an `if` condition |
| EvalFacts.PrintConditionRefused | repl.py:394-398 | `print e` is not typed `bool`, so it cannot be an `if` condition |
| EvalFacts.NotDeclarationRefused | repl.py:270-274 | `bool x = not e` is a TypeError |
| EvalFacts.IfRunsChosenBranch | repl.py:394-402 | a bool-typed condition is evaluated in a fresh child scope, and exactly the branch its truth value selects runs there, in the state the condition left |
| EvalFacts.IfWithoutElseFalse | repl.py:394-402 | an `if` without else whose bool-typed condition evaluates to a falsy value yields None, in the state the condition left |
| EvalFacts.WhileZeroIterations | repl.py:416-424 | a loop whose bool-typed condition is falsy on its first evaluation runs no iteration and yields None, in the state the condition left |
| EvalFacts.TrueLoopRunsBody | repl.py:422-423 | with a true condition, the loop runs its body |
| EvalFacts.RedeclaringBodyFails | repl.py:416-424 | a loop body redeclaring a name already in the loop scope fails |
| EvalFacts.WhileEntersLoop | repl.py:416-422 | a well-typed `while` runs its loop in one fresh child scope, starting from result None |
| EvalFacts.BodyThenLoop | repl.py:422-423 | after a successful body, the loop continues with the body's result |
| EvalFacts.DeclaringBodyFailsNextRound | repl.py:421-423 | a declaring body succeeds once, then fails on the second round |
| EvalFacts.WhileRedeclareFails | repl.py:421-423 | `while true do T y = v end` fails with RuntimeError, because all iterations share one scope |
| EvalFacts.IfTypeIsNotTheValueType | repl.py:382-402 | `if true then 1 else 2.0` is typed float yet evaluates to the int 1 |
| EvalFacts.CallErrors | repl.py:321-326 | an unknown function is a NameError, and a wrong argument count is a ValueError, both with no effect |
| EvalFacts.CallLeavesExistingScopes | repl.py:327-328 | a call never changes a binding visible from an existing scope |
| EvalFacts.CallFailsInArguments | repl.py:330-337 | an argument that fails to evaluate or convert makes the call fail with that error |
| EvalFacts.CallArgumentNotConvertible | repl.py:333-337 | a string that does not parse as an int, passed to an int parameter, is a TypeError |
| EvalFacts.GlobalCallArgumentSeesParameterNone | repl.py:319-337 | from `global_scope`, an argument naming the parameter reads the parameter's stored None, so it cannot convert to int |
| EvalFacts.EvalArgsConverts | repl.py:330-337 | when the argument loop succeeds, every value has the class its parameter has in the defining scope, after the values gathered before |
| EvalFacts.ReboundKeeps | repl.py:339-343 | a name that is no parameter keeps its binding |
| EvalFacts.ReboundFinds | repl.py:339-343 | with distinct parameter names each parameter holds its own value |
| EvalFacts.AssignLiteralStores | repl.py:340-341 | binding by `assign` stores the value in the invocation scope's own `values` |
| EvalFacts.DeclareLiteralStores | repl.py:342-343 | binding by `declare` stores the value in the invocation scope's own `values` |
| EvalFacts.BindParamsStores | repl.py:339-343 | a successful binding loop leaves the invocation scope's values as `Rebound` describes |
| EvalFacts.CallArgumentsConverted | repl.py:327-337 | each argument of a call gets the class of its parameter in the defining scope |
| EvalFacts.CallBindsInOrder | repl.py:339-343 | the binding loop of a call updates the invocation scope's values parameter by parameter, by `assign` or by `declare` |
| EvalFacts.CallRunsBody | repl.py:319-344 | a call whose argument and binding loops succeed returns the body's evaluation in the invocation scope |
| EvalFacts.CallBindsAndRunsBody | repl.py:319-344 | a successful call runs the body in the invocation scope, where each parameter (of a registered function, so with distinct names) resolves to its converted argument |
| EvalFacts.CallSeesParentScope | repl.py:327-328 | the invocation scope's parent is the defining scope when called from `global_scope` and the caller's scope otherwise, so the body sees the caller's locals |
| EvalFacts.CallFailsInBinding | repl.py:339-343 | a call whose binding loop fails returns that loop's error |
| EvalFacts.LiteralArgumentPasses | repl.py:330-337 | a literal argument of the parameter's own class passes the argument loop unconverted |
| EvalFacts.AssignBindingClashes | repl.py:340-341 | binding by `assign` a value of another class than the visible name's raises TypeError |
| EvalFacts.CallParameterTypeClash | repl.py:339-343 | called from a non-global scope where a variable of the parameter's name but another class is visible, a call fails with TypeError even for an argument of the parameter's own class |
| Registry.Names | repl.py:286-287 | the registered argument names are the parameter names, in order |
| Registry.Define | repl.py:277-290 | `p_statement_def` keeps the state invariant |
| Registry.Prepare | repl.py:280-285 | before the loop: return type recorded, argument list emptied, a fresh scope under `global_scope` registered; nothing else changes |
| Registry.DeclareParams | repl.py:286-288 | the parameter loop changes only the argument list of this function and the function's scope |
| Registry.DeclareParamsBinds | repl.py:286-288 | with distinct names, the loop records every parameter's type with value None and lists the names in order |
| Registry.DeclareParamsNext | repl.py:286-288 | one iteration records parameter i's class in the function's scope, lists its name, and continues with i + 1 |
| Registry.DeclareParamsClash | repl.py:286-288 | a parameter already declared in the function's scope fails with RuntimeError |
| Registry.DeclaredParamFails | repl.py:286-288 | any later parameter already declared makes the loop fail |
| Registry.RepeatedParamFails | repl.py:286-288 | a repeated parameter name makes the loop fail with RuntimeError |
| Registry.DefineLoopSucceeds | repl.py:280-288 | with distinct parameter names, everything except the body is registered, and each parameter is found with its type and None |
| Registry.DefineRegisters | repl.py:277-290 | a new function with distinct parameters is fully registered, and no existing scope changes |
| Registry.DefineTwiceFails | repl.py:280-281 | redefining a function is a NameError with no effect |
| Registry.DuplicateParameterLeavesPartialRegistration | repl.py:282-290 | a repeated parameter fails after the return type is recorded but before the body is, so calling the function is then a NameError |
| Interp.Interpreter.constructor | repl.py:158-163 | the interpreter starts in the start state |
| Interp.Interpreter.NewScope | repl.py:120-123 | `Scope(parent=p)` appends a frame and returns its index |
| Interp.Interpreter.Evaluate | repl.py:562-566 | in-place evaluation yields exactly the reference result and state |
| Interp.Interpreter.EvaluateArithmetic | repl.py:545-564 | the binop, uminus and convert dispatch agrees with the reference |
| Interp.Interpreter.EvaluateBuiltin | repl.py:545-564 | the not, print and name dispatch agrees with the reference |
| Interp.Interpreter.EvaluateBinding | repl.py:545-564 | the assign and declare dispatch agrees with the reference |
| Interp.Interpreter.EvaluateScoped | repl.py:545-564 | the sequence, block and if dispatch agrees with the reference |
| Interp.Interpreter.EvaluateRepeated | repl.py:545-564 | the while and call dispatch agrees with the reference |
| Interp.Interpreter.Declare | repl.py:142-147 | in-place `declare` agrees with the reference |
| Interp.Interpreter.Assign | repl.py:149-156 | in-place `assign` agrees with the reference |
| Interp.Interpreter.EvalAssign | repl.py:249-254 | agrees with the reference `eval_assign` |
| Interp.Interpreter.EvalDeclare | repl.py:270-274 | agrees with the reference `eval_declare` |
| Interp.Interpreter.EvalSequence | repl.py:362-364 | agrees with the reference `eval_sequence` |
| Interp.Interpreter.EvalBlock | repl.py:372-374 | agrees with the reference `eval_block` |
| Interp.Interpreter.EvalIf | repl.py:394-402 | agrees with the reference `eval_if` |
| Interp.Interpreter.EvalWhile | repl.py:416-424 | agrees with the reference `eval_while` |
| Interp.Interpreter.WhileLoop | repl.py:420-424 | the `while` loop, run in place, computes the reference loop from result None |
| Interp.Interpreter.WhileRound | repl.py:422-423 | one round either finishes the loop or leaves a state from which the reference loop continues unchanged |
| Interp.Interpreter.WhileTest | repl.py:422 | the condition test either ends the loop with the reference outcome or lets it continue |
| Interp.Interpreter.WhileRun | repl.py:423 | the body run either ends the loop with the reference outcome or hands over its result |
| Interp.Interpreter.EvalBinop | repl.py:480-506 | agrees with the reference `eval_binop` |
| Interp.Interpreter.EvalUminus | repl.py:514-518 | agrees with the reference `eval_uminus` |
| Interp.Interpreter.EvalNot | repl.py:229-230 | agrees with the reference `eval_not` |
| Interp.Interpreter.EvalPrint | repl.py:238-241 | agrees with the reference `eval_print`, and appends the printed value |
| Interp.Interpreter.EvalConvert | repl.py:215-221 | agrees with the reference `eval_convert` |
| Interp.Interpreter.EvalCall | repl.py:319-344 | agrees with the reference `eval_call` |
| Interp.Interpreter.EvalArgs | repl.py:329-337 | the argument loop, run in place, agrees with the reference |
| Interp.Interpreter.BindParams | repl.py:339-343 | the binding loop, run in place, agrees with the reference |
| Interp.Interpreter.Define | repl.py:277-290 | in-place `p_statement_def` agrees with the reference |
| Interp.Interpreter.Prepare | repl.py:280-285 | the registry updates before the loop agree with the reference |
| Interp.Interpreter.DeclareParams | repl.py:286-288 | the parameter loop, run in place, agrees with the reference |
| ParserActions.LeftIdentityKeepsValue | repl.py:438-439 | dropping `0 +` or `1 *` before a number keeps its value (up to int/float equality; exactly, for ints) |
| ParserActions.RightIdentityKeepsValue | repl.py:440-441 | dropping `+ 0`, `- 0`, `* 1` or `/ 1` after a number keeps its value (exactly, for ints, except `/`) |
| ParserActions.IdentityRewriteKeepsValue | repl.py:438-441 | whenever the binop rewrite returns a bare operand of two numbers, the operator would have given an equal value |
| ParserActions.DoublingRewriteKeepsResult | repl.py:442-443 | `2 * x` becomes `x + x`, which gives the same result for ints and strings |
| ParserActions.FloatTwoDoublingDiffers | repl.py:442-443 | `2.0 * 3` is rewritten to `3 + 3` (an int, not 6.0), and `2.0 * "ab"` (a TypeError) to `"ab" + "ab"` |
| ParserActions.ZeroRewriteHidesTypeError | repl.py:438-447 | `"a" + 0` is a TypeError, but the rewrite turns it into `"a"` |
| ParserActions.SimplifyBinop | repl.py:427-447 | the rewrite yields an operand, the plain binop or an operand doubled by `+`; `^` and comparisons are never rewritten |
| ParserActions.SequenceNode | repl.py:352-359 | `a ; b` becomes either b alone or the sequence node |
| ParserActions.LiteralElisionKeepsMeaning | repl.py:356-357 | dropping a literal first statement does not change the result |
| ParserActions.SequenceStops | repl.py:362-364 | a failing first statement makes the whole sequence fail with it |
| ParserActions.NameElisionHidesLookupError | repl.py:355-357 | an undefined name as first statement is dropped, though evaluating it would raise LookupError |
| ParserActions.BinopElisionHidesDivisionByZero | repl.py:355-357 | `1/0 ; b` becomes b, though evaluating it would raise ZeroDivisionError |
| ParserActions.LStrip | repl.py:211 | `lstrip` never makes a string longer |
| ParserActions.LStripDropsLongestPrefix | repl.py:211 | `lstrip(chars)` removes exactly the longest prefix made of `chars` |
| ParserActions.StrToType | repl.py:165 | `str_to_type` maps only to the four value classes |
| ParserActions.TypeNode | repl.py:257-262 | `p_type` succeeds exactly on int, float, str and bool, giving a value class; any other word is a KeyError |
| ParserActions.ConvertNode | repl.py:209-212 | a convert node keeps its keyword and operand and targets a value class; an unknown keyword is a KeyError |
| ParserActions.TypeNodeRoundTrip | repl.py:257-262 | each type keyword maps to its class and back |
| ParserActions.ConvertKeywordRoundTrip | repl.py:209-212 | `to<type>` builds the convert node for that class |
| ParserActions.UnknownConvertKeyword | repl.py:211 | a keyword whose stripped text is not a type name is a KeyError |
| ParserActions.ParamList | repl.py:293-299 | a non-empty `args` list starts with its first `(type, name)` pair |
| ParserActions.ParamListRoundTrip | repl.py:293-299 | `p_args` lists and derivation trees correspond one-to-one |
| ParserActions.ArgList | repl.py:307-316 | `call_args` is empty exactly for the empty derivation, and otherwise starts with the first expression |
| ParserActions.ArgListRoundTrip | repl.py:307-316 | every argument list is built by some `call_args` derivation |
| ParserActions.TrailingCommaIgnored | repl.py:311-316 | `f(e,)` and `f(e)` are different derivations with the same argument list |
| ParserActions.CallNode | repl.py:302-304 | the call node names the function and carries one expression per argument |
| MarkdownLex.JoinAppend | markdown_to_html_lex.py:152 | joining token values distributes over concatenation |
| MarkdownLex.Rule | markdown_to_html_lex.py:32-134 | no rule matches exactly `<li>` in INITIAL and the closing forms of hr and br; every rule yields non-empty text; only list tags change state |
| MarkdownLex.Step | markdown_to_html_lex.py:32-144 | one piece advances the line number by its newlines only, yields a token exactly for a tag or text, stamped with the current line, and only a tag changes state |
| MarkdownLex.Lex | markdown_to_html_lex.py:147-152 | the line number never goes back |
| MarkdownLex.TokenLinesBounded | markdown_to_html_lex.py:137-152 | every token's line lies between the start line and the end line |
| MarkdownLex.TokenLinesInOrder | markdown_to_html_lex.py:137-152 | tokens come out in line order |
| MarkdownLex.Render | markdown_to_html_lex.py:151-152 | empty input gives empty output, and a lone run of text is printed unchanged |
| MarkdownLex.LexAppend | markdown_to_html_lex.py:147-152 | lexing two pieces of input in a row is lexing their concatenation |
| MarkdownLex.OutputAppend | markdown_to_html_lex.py:152 | the output of concatenated input is the two outputs concatenated, the second resumed in the first's state |
| MarkdownLex.LinenoCountsNewlines | markdown_to_html_lex.py:137-139 | the line number advances by exactly the number of newlines consumed |
| MarkdownLex.StepIgnoresLineno | markdown_to_html_lex.py:32-144 | no rule's state change or token text depends on the line number |
| MarkdownLex.OutputIgnoresLineno | markdown_to_html_lex.py:32-152 | the converted text and the final state do not depend on the starting line |
| MarkdownLex.SkippedPieceAddsNothing | markdown_to_html_lex.py:137-144 | newlines, blanks and illegal characters add nothing to the output |
| MarkdownLex.StateIsLastListTag | markdown_to_html_lex.py:32-50 | the lexer's state is set by the last `<ol>`, `<ul>` or closing list tag, and by nothing else |
| MarkdownLex.ListItemMarker | markdown_to_html_lex.py:53-62 | `<li>` prints `1. ` inside `ol`, `* ` inside `ul`, and the text `li` in INITIAL |
| MarkdownLex.NoListNesting | markdown_to_html_lex.py:39-62 | closing an inner list returns to INITIAL, so a following `<li>` is not a list item |
| MarkdownLex.PairedTagsAgree | markdown_to_html_lex.py:71-122 | exactly `p`, `em`, `strong`, `code` and `strike` print the same text when opening and closing |
| MarkdownLex.OnlyListTagsSwitchState | markdown_to_html_lex.py:32-134 | only `<ol>`, `<ul>` and their closing tags change state, and closing either returns to INITIAL |
| MarkdownLex.Lexer.constructor | markdown_to_html_lex.py:147 | a new lexer is in INITIAL at line 1 with no tokens |
| MarkdownLex.Lexer.Feed | markdown_to_html_lex.py:32-144 | one piece, in place, updates state, line number and tokens as the rule table says |
| MarkdownLex.Lexer.Run | markdown_to_html_lex.py:151-152 | running the lexer loop over the input appends exactly the tokens of the functional lexer, and ends in its state |
| MarkdownLex.Convert | markdown_to_html_lex.py:151-152 | the converter's output is the joined token text of the whole input |

## Left out

- The PLY tokenizer and the LALR parser of `repl.py` (token regexes, precedence, `p_error`, `p_error_expression`) are not modelled. The evaluator starts from an AST, and the parser actions from already-parsed children.
- The REPL loop, `input()` and the printing of each statement's AST and result (`p_statement_expr`) are left out. What `print` writes is modelled as the sequence `output` of values, not as text.
- `print(p[8])` in `p_statement_def` is console output only, and is left out.
- `print(args, arguments[fun])` before the ValueError in `eval_call` is console output only, and is left out.
- Floats are exact reals. Rounding, infinities, `float(str)`, `str(float)` and float `**` are not modelled; those cases give the error `NotModelled`.
- `int(str)` accepts an optional sign and ASCII digits, with surrounding white space as `str.isspace` defines it. Underscores between digits and non-ASCII digits are not accepted.
- Typer.TypeEq: `get_type` can return a literal (the fallback `expr[1]` for `not`, `print` and `convert`). Python `==` between two such operands is modelled structurally, with Python numeric equality at the top level only, not inside nested expressions.
- Eval.Evaluate: a `fuel` bound stands in for non-termination. Each node and each loop iteration costs one unit, and running out yields `OutOfFuel`, which Python never raises. Python's recursion limit is not modelled.
- EvalFacts.CallBindsAndRunsBody: the per-parameter lookup is stated for distinct parameter names, which every function `p_statement_def` registers has; repeated names are covered by EvalFacts.CallBindsInOrder, where the last binding wins.
- `arg_values` in `eval_call` is built as a growing sequence rather than a list overwritten by index. The values and the order are the same.
- `rpn_calc.py` is not part of this model.
- MarkdownLex: the regex matching that splits the HTML text into tags, text runs, newlines and blanks is not modelled. The lexer consumes pre-split pieces.
- MarkdownLex: the message `t_error` prints and the file opening and reading are left out. An illegal character is skipped and produces no token.
- MarkdownLex: tokens keep their kind, text and line number. PLY's `lexpos` is not modelled.
- Where the written behaviour and the code disagree, the model follows the code. Assignment writes the receiving scope's `values` (repl.py:154) even when the name was declared in an ancestor, so the ancestor's binding is untouched and the write is lost when a block, `if` or call scope ends. The model does not write into the declaring scope.
- The exception classes are the ones `repl.py` raises (`LookupError`, `TypeError`, `RuntimeError`, `NameError`, `ValueError`, `ZeroDivisionError`, `KeyError`), not a separate error taxonomy.

/** Function definition: the effect of `p_statement_def` on the four
    registries and on the new defining scope. The parse itself and the
    printing of the body tree are not part of this model. */
module Registry {
  import opened Ast
  import opened Scopes
  import opened Eval

  /** The parameter names of a `def`, in order. */
  function Names(params: seq<(Type, string)>): (r: seq<string>)
    ensures |r| == |params| && forall k | 0 <= k < |params| :: r[k] == params[k].1
  {
    seq(|params|, k requires 0 <= k < |params| => params[k].1)
  }

  predicate Distinct(xs: seq<string>)
  {
    forall i, j | 0 <= i < j < |xs| :: xs[i] != xs[j]
  }

  /** `def name args -> ret = body` (repl.py:277-290): NameError when the
      name is already a function. Otherwise the return type and an empty
      argument list are registered, a scope whose parent is `global_scope`
      becomes the defining scope, and each parameter is appended to the
      argument list and declared there with value None; a repeated
      parameter name makes `declare` raise RuntimeError, leaving what was
      registered so far. The body is registered last. */
  function Define(st: State, name: string, params: seq<(Type, string)>, ret: Type, body: Expr): (r: (Result<()>, State))
    requires Valid(st)
    ensures Valid(r.1)
  {
    if name in st.functions then (Err(NameError), st)
    else
      var (rp, st2) := DeclareParams(name, params, 0, |st.frames|, Prepare(st, name, ret));
      match rp
      case Err(e) => (Err(e), st2)
      case Ok(_) => (Ok(()), st2.(functions := st2.functions[name := body]))
  }

  /** The registrations made before the parameter loop: return type, empty
      argument list, and a new scope under `global_scope` as the defining
      scope. */
  function Prepare(st: State, name: string, ret: Type): (r: State)
    requires Valid(st)
    ensures Valid(r) && |r.frames| == |st.frames| + 1
    ensures r.frames[|st.frames|] == NewFrame(0) && r.frames[..|st.frames|] == st.frames
    ensures r.functions == st.functions && r.output == st.output
    ensures r.functionTypes == st.functionTypes[name := ret]
    ensures r.arguments == st.arguments[name := []]
    ensures r.functionScopes == st.functionScopes[name := |st.frames|]
  {
    var st0 := PushScope(st, 0);
    st0.(functionTypes := st.functionTypes[name := ret],
         arguments := st.arguments[name := []],
         functionScopes := st.functionScopes[name := |st.frames|])
  }

  /** The loop of `p_statement_def` from parameter i on. The initialiser
      None is a bare value, which `declare` stores as it is. */
  function DeclareParams(name: string, params: seq<(Type, string)>, i: nat, fs: nat, st: State): (r: (Result<()>, State))
    requires Valid(st) && fs < |st.frames| && name in st.arguments && i <= |params|
    ensures Valid(r.1) && Evolves(st.(arguments := r.1.arguments), r.1, fs)
    ensures name in r.1.arguments && r.1.arguments == st.arguments[name := r.1.arguments[name]]
    decreases |params| - i
  {
    if i == |params| then (Ok(()), st)
    else
      var (t, x) := params[i];
      var st1 := st.(arguments := st.arguments[name := st.arguments[name] + [x]]);
      match DeclareValue(st1.frames, fs, x, t, NoneValue)
      case Err(e) => (Err(e), st1)
      case Ok(frames) => DeclareParams(name, params, i + 1, fs, st1.(frames := frames))
  }

  /** With distinct parameter names new to the scope, the loop succeeds:
      the argument list is the parameter names in order, and every
      parameter is declared in the defining scope with its class and the
      value None. */
  lemma {:induction false} DeclareParamsBinds(name: string, params: seq<(Type, string)>, i: nat, fs: nat, st: State)
    requires Valid(st) && fs < |st.frames| && name in st.arguments && i <= |params|
    requires Distinct(Names(params))
    requires st.arguments[name] == Names(params)[..i]
    requires forall k | i <= k < |params| :: params[k].1 !in st.frames[fs].types
    requires forall k | 0 <= k < i :: params[k].1 in st.frames[fs].types && st.frames[fs].types[params[k].1] == params[k].0
    requires forall k | 0 <= k < i :: params[k].1 in st.frames[fs].values && st.frames[fs].values[params[k].1] == NoneValue
    ensures var r := DeclareParams(name, params, i, fs, st);
            && r.0 == Ok(())
            && r.1.arguments[name] == Names(params)
            && (forall k | 0 <= k < |params| :: params[k].1 in r.1.frames[fs].types && r.1.frames[fs].types[params[k].1] == params[k].0)
            && (forall k | 0 <= k < |params| :: params[k].1 in r.1.frames[fs].values && r.1.frames[fs].values[params[k].1] == NoneValue)
            && r.1.output == st.output && |r.1.frames| == |st.frames|
    decreases |params| - i
  {
    if i < |params| {
      var (t, x) := params[i];
      var st1 := st.(arguments := st.arguments[name := st.arguments[name] + [x]]);
      var st2 := st1.(frames := SetValue(SetType(st1.frames, fs, x, t), fs, x, NoneValue));
      assert Names(params)[..i + 1] == Names(params)[..i] + [x];
      forall k | i + 1 <= k < |params|
        ensures params[k].1 !in st2.frames[fs].types
      {
        assert Names(params)[i] != Names(params)[k];
      }
      forall k | 0 <= k < i + 1
        ensures params[k].1 in st2.frames[fs].values && st2.frames[fs].values[params[k].1] == NoneValue
      {
      }
      DeclareParamsBinds(name, params, i + 1, fs, st2);
    } else {
      assert Names(params)[..i] == Names(params);
    }
  }

  /** The state after the round of the loop for parameter i, when its name
      is new to the scope: the name appended to the argument list and
      declared in the defining scope with its class and None. */
  function ParamDeclared(name: string, params: seq<(Type, string)>, i: nat, fs: nat, st: State): State
    requires fs < |st.frames| && name in st.arguments && i < |params|
  {
    var (t, x) := params[i];
    st.(arguments := st.arguments[name := st.arguments[name] + [x]],
        frames := SetValue(SetType(st.frames, fs, x, t), fs, x, NoneValue))
  }

  /** A round of the loop for a name new to the scope declares it with
      its class and None, and the loop goes on from the next parameter. */
  lemma DeclareParamsNext(name: string, params: seq<(Type, string)>, i: nat, fs: nat, st: State)
    requires Valid(st) && fs < |st.frames| && name in st.arguments && i < |params|
    requires params[i].1 !in st.frames[fs].types
    ensures var st2 := ParamDeclared(name, params, i, fs, st);
            && Valid(st2) && fs < |st2.frames| && name in st2.arguments
            && st2.frames[fs].types == st.frames[fs].types[params[i].1 := params[i].0]
            && DeclareParams(name, params, i, fs, st) == DeclareParams(name, params, i + 1, fs, st2)
  {
  }

  /** A round of the loop for a name the scope already declares raises
      RuntimeError. */
  lemma DeclareParamsClash(name: string, params: seq<(Type, string)>, i: nat, fs: nat, st: State)
    requires Valid(st) && fs < |st.frames| && name in st.arguments && i < |params|
    requires params[i].1 in st.frames[fs].types
    ensures DeclareParams(name, params, i, fs, st).0 == Err(RuntimeError)
  {
  }

  /** A parameter whose name the defining scope already declares makes the
      loop raise RuntimeError, whatever comes before it. */
  lemma {:induction false} DeclaredParamFails(name: string, params: seq<(Type, string)>, i: nat, j: nat, fs: nat, st: State)
    requires Valid(st) && fs < |st.frames| && name in st.arguments && i <= j < |params|
    requires params[j].1 in st.frames[fs].types
    ensures DeclareParams(name, params, i, fs, st).0 == Err(RuntimeError)
    decreases j - i
  {
    if params[i].1 in st.frames[fs].types {
      DeclareParamsClash(name, params, i, fs, st);
    } else {
      var st2 := ParamDeclared(name, params, i, fs, st);
      DeclareParamsNext(name, params, i, fs, st);
      DeclaredParamFails(name, params, i + 1, j, fs, st2);
    }
  }

  /** A parameter name that repeats an earlier one (at k) makes the loop
      raise RuntimeError. */
  lemma {:induction false} RepeatedParamFails(name: string, params: seq<(Type, string)>, i: nat, k: nat, j: nat, fs: nat, st: State)
    requires Valid(st) && fs < |st.frames| && name in st.arguments && i <= k < j < |params|
    requires params[k].1 == params[j].1
    ensures DeclareParams(name, params, i, fs, st).0 == Err(RuntimeError)
    decreases k - i
  {
    if params[i].1 in st.frames[fs].types {
      DeclareParamsClash(name, params, i, fs, st);
    } else if i < k {
      var st2 := ParamDeclared(name, params, i, fs, st);
      DeclareParamsNext(name, params, i, fs, st);
      RepeatedParamFails(name, params, i + 1, k, j, fs, st2);
    } else {
      var st2 := ParamDeclared(name, params, i, fs, st);
      DeclareParamsNext(name, params, i, fs, st);
      DeclaredParamFails(name, params, i + 1, j, fs, st2);
    }
  }

  /** With distinct parameter names the loop of a new definition succeeds;
      its state is the prepared one with the parameters bound. */
  lemma DefineLoopSucceeds(st: State, name: string, params: seq<(Type, string)>, ret: Type)
    requires Valid(st) && Distinct(Names(params))
    ensures var r := DeclareParams(name, params, 0, |st.frames|, Prepare(st, name, ret));
            && r.0 == Ok(())
            && r.1.arguments == st.arguments[name := Names(params)]
            && r.1.functionTypes == st.functionTypes[name := ret]
            && r.1.functionScopes == st.functionScopes[name := |st.frames|]
            && r.1.functions == st.functions
            && |r.1.frames| == |st.frames| + 1
            && r.1.frames[|st.frames|].parent == Some(0)
            && (forall i | 0 <= i < |st.frames| :: r.1.frames[i] == st.frames[i])
            && (forall k | 0 <= k < |params| ::
                  LookupType(r.1.frames, |st.frames|, params[k].1) == Ok(params[k].0)
                  && LookupValue(r.1.frames, |st.frames|, params[k].1) == Ok(NoneValue))
            && r.1.output == st.output
  {
    var fs := |st.frames|;
    var st1 := Prepare(st, name, ret);
    assert Names(params)[..0] == [];
    DeclareParamsBinds(name, params, 0, fs, st1);
    var st2 := DeclareParams(name, params, 0, fs, st1).1;
    assert st2.arguments == st.arguments[name := Names(params)];
    forall i | 0 <= i < |st.frames|
      ensures st2.frames[i] == st.frames[i]
    {
      assert st1.frames[i] == st.frames[i];
    }
  }

  /** A new name with distinct parameters is registered completely: body,
      return type, the parameter names in order, and a fresh defining scope
      (a child of `global_scope`) that binds each parameter to its class
      and None. No existing scope changes, nothing is printed. */
  lemma DefineRegisters(st: State, name: string, params: seq<(Type, string)>, ret: Type, body: Expr)
    requires Valid(st) && name !in st.functions
    requires Distinct(Names(params))
    ensures var r := Define(st, name, params, ret, body);
            && r.0 == Ok(())
            && r.1.functions == st.functions[name := body]
            && r.1.functionTypes == st.functionTypes[name := ret]
            && r.1.arguments == st.arguments[name := Names(params)]
            && r.1.functionScopes == st.functionScopes[name := |st.frames|]
            && |r.1.frames| == |st.frames| + 1
            && r.1.frames[|st.frames|].parent == Some(0)
            && (forall i | 0 <= i < |st.frames| :: r.1.frames[i] == st.frames[i])
            && (forall k | 0 <= k < |params| ::
                  LookupType(r.1.frames, |st.frames|, params[k].1) == Ok(params[k].0)
                  && LookupValue(r.1.frames, |st.frames|, params[k].1) == Ok(NoneValue))
            && r.1.output == st.output
  {
    DefineLoopSucceeds(st, name, params, ret);
    var st2 := DeclareParams(name, params, 0, |st.frames|, Prepare(st, name, ret)).1;
    assert Define(st, name, params, ret, body) == (Ok(()), st2.(functions := st.functions[name := body]));
  }

  /** Redefining a function raises NameError and changes nothing. */
  lemma DefineTwiceFails(st: State, name: string, params: seq<(Type, string)>, ret: Type, body: Expr)
    requires Valid(st) && name in st.functions
    ensures Define(st, name, params, ret, body) == (Err(NameError), st)
  {
  }

  /** A repeated parameter name raises RuntimeError after the return type,
      the argument list and the defining scope are registered but before
      the body is: the function stays undefined, so calling it raises
      NameError, while its name already has a return type. */
  lemma DuplicateParameterLeavesPartialRegistration(st: State, name: string, params: seq<(Type, string)>, ret: Type, body: Expr,
                                                    i: nat, j: nat, args: seq<Expr>, fuel: nat)
    requires Valid(st) && name !in st.functions
    requires i < j < |params| && params[i].1 == params[j].1
    requires fuel >= 1
    ensures var r := Define(st, name, params, ret, body);
            && r.0 == Err(RuntimeError)
            && name !in r.1.functions
            && name in r.1.functionTypes && r.1.functionTypes[name] == ret
            && Evaluate(fuel, Call(name, args), 0, r.1) == (Err(NameError), r.1)
  {
    var fs := |st.frames|;
    var st1 := Prepare(st, name, ret);
    RepeatedParamFails(name, params, 0, i, j, fs, st1);
    var st2 := DeclareParams(name, params, 0, fs, st1).1;
    assert Define(st, name, params, ret, body) == (Err(RuntimeError), st2);
    assert name !in st2.functions && st2.functionTypes[name] == ret;
    assert Evaluate(fuel, Call(name, args), 0, st2) == EvalCall(fuel - 1, name, args, 0, st2);
  }
}

/** The `Scope` class as an arena of frames. A frame holds the two dicts
    `types` and `values` and the index of its parent frame; a parent always
    has a smaller index than its child, so every walk up the chain ends.
    Frame 0 is `global_scope`. The updates of `declare` and `assign` live
    with the evaluator (they evaluate an expression); this module holds the
    read-only walks and the single-entry writes. */
module Scopes {
  import opened Ast

  datatype Frame = Frame(types: map<string, Type>, values: map<string, Value>, parent: Option<nat>)

  /** A fresh `Scope(parent=p)`: both dicts empty. */
  function NewFrame(p: nat): Frame
  {
    Frame(map[], map[], Some(p))
  }

  /** Frame 0 has no parent; every other parent link points downwards. */
  predicate WellLinked(frames: seq<Frame>)
  {
    && |frames| > 0
    && frames[0].parent.None?
    && forall i | 0 <= i < |frames| :: frames[i].parent.Some? ==> frames[i].parent.value < i
  }

  /** `Scope.get_type`: the receiver first, then the parent chain;
      LookupError once the chain is exhausted. */
  function LookupType(frames: seq<Frame>, sc: nat, x: string): (r: Result<Type>)
    requires WellLinked(frames) && sc < |frames|
    ensures r.Err? ==> r == Err(LookupError)
    ensures r.Ok? ==> IsNameDeclared(frames, sc, x)
    decreases sc
  {
    if x in frames[sc].types then Ok(frames[sc].types[x])
    else match frames[sc].parent
      case Some(p) => LookupType(frames, p, x)
      case None => Err(LookupError)
  }

  /** `Scope.get_value`: the same walk over the `values` dicts. */
  function LookupValue(frames: seq<Frame>, sc: nat, x: string): (r: Result<Value>)
    requires WellLinked(frames) && sc < |frames|
    ensures r.Err? ==> r == Err(LookupError)
    decreases sc
  {
    if x in frames[sc].values then Ok(frames[sc].values[x])
    else match frames[sc].parent
      case Some(p) => LookupValue(frames, p, x)
      case None => Err(LookupError)
  }

  /** `Scope.is_name_declared`: the name is in the `types` of the receiver
      or of some ancestor. */
  function IsNameDeclared(frames: seq<Frame>, sc: nat, x: string): (r: bool)
    requires WellLinked(frames) && sc < |frames|
    ensures x in frames[sc].types ==> r
    ensures frames[sc].parent.None? ==> (r <==> x in frames[sc].types)
    decreases sc
  {
    x in frames[sc].types ||
    (frames[sc].parent.Some? && IsNameDeclared(frames, frames[sc].parent.value, x))
  }

  /** a is sc or lies on sc's parent chain. */
  ghost predicate Ancestor(frames: seq<Frame>, sc: nat, a: nat)
    requires WellLinked(frames) && sc < |frames|
    decreases sc
  {
    a == sc || (frames[sc].parent.Some? && Ancestor(frames, frames[sc].parent.value, a))
  }

  lemma {:induction false} AncestorBelow(frames: seq<Frame>, sc: nat, a: nat)
    requires WellLinked(frames) && sc < |frames|
    requires Ancestor(frames, sc, a)
    ensures a <= sc
  {
    if a != sc {
      AncestorBelow(frames, frames[sc].parent.value, a);
    }
  }

  /** A name resolves to a type exactly when `is_name_declared` holds. */
  lemma {:induction false} LookupTypeIffDeclared(frames: seq<Frame>, sc: nat, x: string)
    requires WellLinked(frames) && sc < |frames|
    ensures LookupType(frames, sc, x).Ok? <==> IsNameDeclared(frames, sc, x)
    decreases sc
  {
    if x !in frames[sc].types && frames[sc].parent.Some? {
      LookupTypeIffDeclared(frames, frames[sc].parent.value, x);
    }
  }

  /** `is_name_declared` holds exactly when some frame on the chain has the
      name in its `types`. */
  lemma {:induction false} DeclaredIffSomeAncestor(frames: seq<Frame>, sc: nat, x: string)
    requires WellLinked(frames) && sc < |frames|
    ensures IsNameDeclared(frames, sc, x) <==> exists a: nat :: a < |frames| && Ancestor(frames, sc, a) && x in frames[a].types
    decreases sc
  {
    if x in frames[sc].types {
      assert Ancestor(frames, sc, sc);
    } else if frames[sc].parent.Some? {
      var p := frames[sc].parent.value;
      DeclaredIffSomeAncestor(frames, p, x);
      if IsNameDeclared(frames, p, x) {
        var a: nat :| a < |frames| && Ancestor(frames, p, a) && x in frames[a].types;
        assert Ancestor(frames, sc, a);
      }
      if exists a: nat :: a < |frames| && Ancestor(frames, sc, a) && x in frames[a].types {
        var a: nat :| a < |frames| && Ancestor(frames, sc, a) && x in frames[a].types;
        assert a != sc;
        assert Ancestor(frames, p, a);
      }
    }
  }

  /** A type found by `get_type` is the one recorded by a frame on the chain,
      and every frame strictly below that one on the chain lacks the name. */
  lemma {:induction false} LookupTypeNearest(frames: seq<Frame>, sc: nat, x: string)
    requires WellLinked(frames) && sc < |frames|
    requires LookupType(frames, sc, x).Ok?
    ensures exists a: nat :: a < |frames| && Ancestor(frames, sc, a) && x in frames[a].types
                     && frames[a].types[x] == LookupType(frames, sc, x).value
                     && NotBetween(frames, sc, a, x)
    decreases sc
  {
    if x in frames[sc].types {
      assert Ancestor(frames, sc, sc) && NotBetween(frames, sc, sc, x);
    } else {
      var p := frames[sc].parent.value;
      LookupTypeNearest(frames, p, x);
      var a: nat :| a < |frames| && Ancestor(frames, p, a) && x in frames[a].types
               && frames[a].types[x] == LookupType(frames, p, x).value
               && NotBetween(frames, p, a, x);
      AncestorBelow(frames, p, a);
      assert Ancestor(frames, sc, a) && NotBetween(frames, sc, a, x);
    }
  }

  /** No frame on the chain from sc up to, but excluding, a has x in its
      `types`. */
  ghost predicate NotBetween(frames: seq<Frame>, sc: nat, a: nat, x: string)
    requires WellLinked(frames) && sc < |frames|
    decreases sc
  {
    sc == a || (x !in frames[sc].types && frames[sc].parent.Some? && NotBetween(frames, frames[sc].parent.value, a, x))
  }

  /** `get_value` succeeds exactly when some frame on the chain has the name
      in its `values`. */
  lemma {:induction false} LookupValueIffSomeAncestor(frames: seq<Frame>, sc: nat, x: string)
    requires WellLinked(frames) && sc < |frames|
    ensures LookupValue(frames, sc, x).Ok? <==> exists a: nat :: a < |frames| && Ancestor(frames, sc, a) && x in frames[a].values
    decreases sc
  {
    if x in frames[sc].values {
      assert Ancestor(frames, sc, sc);
    } else if frames[sc].parent.Some? {
      var p := frames[sc].parent.value;
      LookupValueIffSomeAncestor(frames, p, x);
      if LookupValue(frames, p, x).Ok? {
        var a: nat :| a < |frames| && Ancestor(frames, p, a) && x in frames[a].values;
        assert Ancestor(frames, sc, a);
      }
      if exists a: nat :: a < |frames| && Ancestor(frames, sc, a) && x in frames[a].values {
        var a: nat :| a < |frames| && Ancestor(frames, sc, a) && x in frames[a].values;
        assert a != sc;
        assert Ancestor(frames, p, a);
      }
    }
  }

  /** A value found by `get_value` is the one stored by a frame on the chain,
      and every frame strictly below that one on the chain lacks the name. */
  lemma {:induction false} LookupValueNearest(frames: seq<Frame>, sc: nat, x: string)
    requires WellLinked(frames) && sc < |frames|
    requires LookupValue(frames, sc, x).Ok?
    ensures exists a: nat :: a < |frames| && Ancestor(frames, sc, a) && x in frames[a].values
                     && frames[a].values[x] == LookupValue(frames, sc, x).value
                     && NoValueBetween(frames, sc, a, x)
    decreases sc
  {
    if x in frames[sc].values {
      assert Ancestor(frames, sc, sc) && NoValueBetween(frames, sc, sc, x);
    } else {
      var p := frames[sc].parent.value;
      LookupValueNearest(frames, p, x);
      var a: nat :| a < |frames| && Ancestor(frames, p, a) && x in frames[a].values
               && frames[a].values[x] == LookupValue(frames, p, x).value
               && NoValueBetween(frames, p, a, x);
      AncestorBelow(frames, p, a);
      assert Ancestor(frames, sc, a) && NoValueBetween(frames, sc, a, x);
    }
  }

  /** No frame on the chain from sc up to, but excluding, a has x in its
      `values`. */
  ghost predicate NoValueBetween(frames: seq<Frame>, sc: nat, a: nat, x: string)
    requires WellLinked(frames) && sc < |frames|
    decreases sc
  {
    sc == a || (x !in frames[sc].values && frames[sc].parent.Some? && NoValueBetween(frames, frames[sc].parent.value, a, x))
  }

  /** Lookups read only the frames on the chain: two arenas that agree on
      every ancestor of sc give the same answers. */
  lemma {:induction false} LookupsReadOnlyChain(f1: seq<Frame>, f2: seq<Frame>, sc: nat, x: string)
    requires WellLinked(f1) && WellLinked(f2) && sc < |f1| && sc < |f2|
    requires forall a | 0 <= a <= sc :: a < |f1| && a < |f2| && f1[a] == f2[a]
    ensures LookupType(f1, sc, x) == LookupType(f2, sc, x)
    ensures LookupValue(f1, sc, x) == LookupValue(f2, sc, x)
    ensures IsNameDeclared(f1, sc, x) == IsNameDeclared(f2, sc, x)
    decreases sc
  {
    if f1[sc].parent.Some? {
      LookupsReadOnlyChain(f1, f2, f1[sc].parent.value, x);
    }
  }

  /** Pushing a new frame keeps the arena well linked. */
  lemma PushWellLinked(frames: seq<Frame>, p: nat)
    requires WellLinked(frames) && p < |frames|
    ensures WellLinked(frames + [NewFrame(p)])
  {
  }

  /** `self.types[name] = t` */
  function SetType(frames: seq<Frame>, sc: nat, x: string, t: Type): (r: seq<Frame>)
    requires sc < |frames|
    ensures |r| == |frames| && r[sc].parent == frames[sc].parent
    ensures WellLinked(frames) ==> WellLinked(r)
  {
    frames[sc := frames[sc].(types := frames[sc].types[x := t])]
  }

  /** `self.values[name] = v` */
  function SetValue(frames: seq<Frame>, sc: nat, x: string, v: Value): (r: seq<Frame>)
    requires sc < |frames|
    ensures |r| == |frames| && r[sc].parent == frames[sc].parent
    ensures WellLinked(frames) ==> WellLinked(r)
  {
    frames[sc := frames[sc].(values := frames[sc].values[x := v])]
  }

  /** `Scope.declare` with an initialiser that is not a tuple, which
      `evaluate` returns unchanged: RuntimeError when the frame already has
      the name, otherwise its class and value are recorded in that frame. */
  function DeclareValue(frames: seq<Frame>, sc: nat, x: string, t: Type, v: Value): (r: Result<seq<Frame>>)
    requires sc < |frames|
    ensures r.Err? <==> x in frames[sc].types
    ensures r.Err? ==> r.error == RuntimeError
    ensures r.Ok? ==> |r.value| == |frames| && (WellLinked(frames) ==> WellLinked(r.value))
  {
    if x in frames[sc].types then Err(RuntimeError)
    else Ok(SetValue(SetType(frames, sc, x, t), sc, x, v))
  }
}

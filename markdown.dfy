/** The HTML-to-Markdown token lexer of markdown_to_html_lex.py. The input
    is taken as already split into the pieces the lexer's regular
    expressions match: a tag, a run of text, a run of newlines, a blank the
    lexer ignores, or a character no rule matches. Each token rule sets the
    token's value and may switch the lexer state (INITIAL, ol, ul) or
    advance the line number; the output is the concatenation of the token
    values. */
module MarkdownLex {
  import opened Ast

  /** The lexer states: INITIAL and the inclusive states `ol` and `ul`. */
  datatype LexState = Initial | InOl | InUl

  datatype TokenKind = LH1 | RH1 | TEXT | PAR | LH2 | RH2 | STRIKE | STRONG | EM | HR | CODE | BR | LOL | RLIST | LUL | LLI | RLI

  datatype Token = Token(kind: TokenKind, value: string, lineno: nat)

  /** The tag names the rules mention. */
  datatype TagName = Ol | Ul | Li | P | H1 | H2 | Em | Strong | Code | Strike | Hr | Br

  /** One piece of the input. `Tag(name, closing)` is `<name>` or
      `</name>`; for hr and br the opening form is the self-closing `<hr/>`
      and `<br/>`. */
  datatype Piece =
    | Tag(name: TagName, closing: bool)
    | Text(s: string)
    | Newlines(count: nat)
    | Blank(c: char)
    | Illegal(c: char)

  /** What a matching rule does: the token's kind and value and the state
      the lexer is in afterwards. */
  datatype Action = Action(kind: TokenKind, value: string, next: LexState)

  /** The token rules of markdown_to_html_lex.py for tags, in state s; None
      when no rule of that state matches the tag. */
  function Rule(s: LexState, name: TagName, closing: bool): (r: Option<Action>)
    ensures r.None? <==> (name == Li && !closing && s.Initial?) || ((name == Hr || name == Br) && closing)
    ensures r.Some? ==> |r.value.value| > 0
    ensures r.Some? && name != Ol && name != Ul ==> r.value.next == s
  {
    match name
    case Ol => if closing then Some(Action(RLIST, "\n", Initial)) else Some(Action(LOL, "\n", InOl))
    case Ul => if closing then Some(Action(RLIST, "\n", Initial)) else Some(Action(LUL, "\n", InUl))
    case Li =>
      if closing then Some(Action(RLI, "\n", s))
      else if s == InOl then Some(Action(LLI, "1. ", s))
      else if s == InUl then Some(Action(LLI, "* ", s))
      else None
    case P => Some(Action(PAR, "\n\n", s))
    case H1 => if closing then Some(Action(RH1, "\n", s)) else Some(Action(LH1, "# ", s))
    case H2 => if closing then Some(Action(RH2, "\n-----------", s)) else Some(Action(LH2, "\n", s))
    case Em => Some(Action(EM, "_", s))
    case Strong => Some(Action(STRONG, "**", s))
    case Code => Some(Action(CODE, "`", s))
    case Strike => Some(Action(STRIKE, "~~", s))
    case Hr => if closing then None else Some(Action(HR, "---", s))
    case Br => if closing then None else Some(Action(BR, "  \n", s))
  }

  function TagText(name: TagName): string
  {
    match name
    case Ol => "ol"
    case Ul => "ul"
    case Li => "li"
    case P => "p"
    case H1 => "h1"
    case H2 => "h2"
    case Em => "em"
    case Strong => "strong"
    case Code => "code"
    case Strike => "strike"
    case Hr => "hr"
    case Br => "br"
  }

  /** A tag no rule matches: `<` and `>` are illegal characters and are
      skipped, and what lies between them is matched as text. */
  function UnmatchedText(name: TagName, closing: bool): string
  {
    (if closing then "/" else "") + TagText(name)
  }

  datatype Stepped = Stepped(token: Option<Token>, state: LexState, lineno: nat)

  /** One piece in state s at line n: the token it yields, if any, and the
      new state and line number. Newline runs advance the line number;
      blanks and illegal characters are skipped. */
  function Step(s: LexState, n: nat, p: Piece): (r: Stepped)
    ensures r.lineno == n + (if p.Newlines? then p.count else 0)
    ensures r.token.Some? <==> p.Tag? || p.Text?
    ensures r.token.Some? ==> r.token.value.lineno == n
    ensures !p.Tag? ==> r.state == s
  {
    match p
    case Tag(name, closing) =>
      (match Rule(s, name, closing)
       case Some(a) => Stepped(Some(Token(a.kind, a.value, n)), a.next, n)
       case None => Stepped(Some(Token(TEXT, UnmatchedText(name, closing), n)), s, n))
    case Text(t) => Stepped(Some(Token(TEXT, t, n)), s, n)
    case Newlines(k) => Stepped(None, s, n + k)
    case Blank(_) => Stepped(None, s, n)
    case Illegal(_) => Stepped(None, s, n)
  }

  function Emitted(t: Option<Token>): seq<Token>
  {
    match t
    case Some(tok) => [tok]
    case None => []
  }

  datatype LexResult = LexResult(tokens: seq<Token>, state: LexState, lineno: nat)

  /** The tokens the lexer yields for the pieces, from state s at line n,
      and the state and line number it ends in. */
  function Lex(pieces: seq<Piece>, s: LexState, n: nat): (r: LexResult)
    ensures r.lineno >= n
    decreases |pieces|
  {
    if |pieces| == 0 then LexResult([], s, n)
    else
      var st := Step(s, n, pieces[0]);
      var r := Lex(pieces[1..], st.state, st.lineno);
      r.(tokens := Emitted(st.token) + r.tokens)
  }

  /** `''.join([token.value for token in lexer])` */
  function Join(tokens: seq<Token>): string
  {
    if |tokens| == 0 then [] else tokens[0].value + Join(tokens[1..])
  }

  /** The program's output for a whole input, which starts in INITIAL at
      line 1. */
  function Render(pieces: seq<Piece>): (out: string)
    ensures pieces == [] ==> out == []
    ensures |pieces| == 1 && pieces[0].Text? ==> out == pieces[0].s
  {
    var r := Lex(pieces, Initial, 1);
    assert |pieces| == 1 && pieces[0].Text? ==> Join(r.tokens) == pieces[0].s by {
      if |pieces| == 1 && pieces[0].Text? {
        assert pieces[1..] == [];
        var tok := Token(TEXT, pieces[0].s, 1);
        assert Step(Initial, 1, pieces[0]).token == Some(tok);
        assert Lex([], Initial, 1).tokens == [];
        assert r.tokens == [tok] + [];
        assert [tok][1..] == [];
      }
    }
    Join(r.tokens)
  }

  /** The number of newlines in the pieces' newline runs. */
  function NewlineTotal(pieces: seq<Piece>): nat
  {
    if |pieces| == 0 then 0
    else (if pieces[0].Newlines? then pieces[0].count else 0) + NewlineTotal(pieces[1..])
  }

  /** The state the last list tag of the pieces selects, or s when there is
      none: `<ol>` gives ol, `<ul>` gives ul, and `</ol>` or `</ul>` give
      INITIAL. */
  function ListStateAfter(pieces: seq<Piece>, s: LexState): LexState
    decreases |pieces|
  {
    if |pieces| == 0 then s
    else
      var p := pieces[|pieces| - 1];
      if p.Tag? && p.name == Ol then (if p.closing then Initial else InOl)
      else if p.Tag? && p.name == Ul then (if p.closing then Initial else InUl)
      else ListStateAfter(pieces[..|pieces| - 1], s)
  }

  // ----- lemmas -----

  lemma {:induction false} JoinAppend(a: seq<Token>, b: seq<Token>)
    ensures Join(a + b) == Join(a) + Join(b)
    decreases |a|
  {
    if |a| == 0 {
      assert a + b == b;
    } else {
      assert (a + b)[0] == a[0] && (a + b)[1..] == a[1..] + b;
      JoinAppend(a[1..], b);
    }
  }

  /** Every token carries a line number between the line the lexer started
      at and the line it ended at. */
  lemma {:induction false} TokenLinesBounded(p: seq<Piece>, s: LexState, n: nat, k: nat)
    requires k < |Lex(p, s, n).tokens|
    ensures n <= Lex(p, s, n).tokens[k].lineno <= Lex(p, s, n).lineno
    decreases |p|
  {
    var st := Step(s, n, p[0]);
    var e := Emitted(st.token);
    var r1 := Lex(p[1..], st.state, st.lineno);
    assert Lex(p, s, n).tokens == e + r1.tokens;
    if k >= |e| {
      TokenLinesBounded(p[1..], st.state, st.lineno, k - |e|);
    }
  }

  /** Tokens come out in line order: the lexer's line number never goes
      back. */
  lemma {:induction false} TokenLinesInOrder(p: seq<Piece>, s: LexState, n: nat, j: nat, k: nat)
    requires j < k < |Lex(p, s, n).tokens|
    ensures Lex(p, s, n).tokens[j].lineno <= Lex(p, s, n).tokens[k].lineno
    decreases |p|
  {
    var st := Step(s, n, p[0]);
    var e := Emitted(st.token);
    var r1 := Lex(p[1..], st.state, st.lineno);
    assert Lex(p, s, n).tokens == e + r1.tokens;
    if j >= |e| {
      TokenLinesInOrder(p[1..], st.state, st.lineno, j - |e|, k - |e|);
    } else {
      TokenLinesBounded(p[1..], st.state, st.lineno, k - |e|);
    }
  }

  /** Lexing is a left-to-right scan: lexing two inputs one after the other
      is lexing their concatenation. */
  lemma {:induction false} LexAppend(p: seq<Piece>, q: seq<Piece>, s: LexState, n: nat)
    ensures var r1 := Lex(p, s, n);
            var r2 := Lex(q, r1.state, r1.lineno);
            Lex(p + q, s, n) == LexResult(r1.tokens + r2.tokens, r2.state, r2.lineno)
    decreases |p|
  {
    if |p| == 0 {
      assert p + q == q;
    } else {
      assert (p + q)[0] == p[0] && (p + q)[1..] == p[1..] + q;
      var st := Step(s, n, p[0]);
      var e := Emitted(st.token);
      LexAppend(p[1..], q, st.state, st.lineno);
      var r1 := Lex(p[1..], st.state, st.lineno);
      var r2 := Lex(q, r1.state, r1.lineno);
      assert Lex(p, s, n) == r1.(tokens := e + r1.tokens);
      assert Lex(p + q, s, n) == LexResult(e + (r1.tokens + r2.tokens), r2.state, r2.lineno);
      assert e + (r1.tokens + r2.tokens) == (e + r1.tokens) + r2.tokens;
    }
  }

  /** The output of a concatenation is the concatenation of the outputs,
      the second part starting in the state the first part leaves. */
  lemma OutputAppend(p: seq<Piece>, q: seq<Piece>, s: LexState, n: nat)
    ensures var r1 := Lex(p, s, n);
            Join(Lex(p + q, s, n).tokens) == Join(r1.tokens) + Join(Lex(q, r1.state, r1.lineno).tokens)
  {
    LexAppend(p, q, s, n);
    var r1 := Lex(p, s, n);
    JoinAppend(r1.tokens, Lex(q, r1.state, r1.lineno).tokens);
  }

  /** `lineno` ends at its start plus the length of every newline run;
      nothing else advances it. */
  lemma {:induction false} LinenoCountsNewlines(p: seq<Piece>, s: LexState, n: nat)
    ensures Lex(p, s, n).lineno == n + NewlineTotal(p)
    decreases |p|
  {
    if |p| > 0 {
      var st := Step(s, n, p[0]);
      LinenoCountsNewlines(p[1..], st.state, st.lineno);
    }
  }

  /** One step's token value and state do not depend on the line number. */
  lemma StepIgnoresLineno(s: LexState, n1: nat, n2: nat, p: Piece)
    ensures Step(s, n1, p).state == Step(s, n2, p).state
    ensures Join(Emitted(Step(s, n1, p).token)) == Join(Emitted(Step(s, n2, p).token))
  {
  }

  /** Token values and states never depend on the line number. */
  lemma {:induction false} OutputIgnoresLineno(p: seq<Piece>, s: LexState, n1: nat, n2: nat)
    ensures Join(Lex(p, s, n1).tokens) == Join(Lex(p, s, n2).tokens)
    ensures Lex(p, s, n1).state == Lex(p, s, n2).state
    decreases |p|
  {
    if |p| > 0 {
      var st1 := Step(s, n1, p[0]);
      var st2 := Step(s, n2, p[0]);
      StepIgnoresLineno(s, n1, n2, p[0]);
      OutputIgnoresLineno(p[1..], st1.state, st1.lineno, st2.lineno);
      JoinAppend(Emitted(st1.token), Lex(p[1..], st1.state, st1.lineno).tokens);
      JoinAppend(Emitted(st2.token), Lex(p[1..], st2.state, st2.lineno).tokens);
    }
  }

  /** A newline run, a skipped blank or an illegal character contributes
      nothing to the output, wherever it stands. */
  lemma SkippedPieceAddsNothing(p1: seq<Piece>, q: Piece, p2: seq<Piece>)
    requires q.Newlines? || q.Blank? || q.Illegal?
    ensures Render(p1 + [q] + p2) == Render(p1 + p2)
  {
    var r1 := Lex(p1, Initial, 1);
    var sq := Step(r1.state, r1.lineno, q);
    OutputAppend(p1, [q] + p2, Initial, 1);
    assert p1 + [q] + p2 == p1 + ([q] + p2);
    assert ([q] + p2)[0] == q && ([q] + p2)[1..] == p2;
    assert Lex([q] + p2, r1.state, r1.lineno).tokens == Lex(p2, r1.state, sq.lineno).tokens;
    OutputIgnoresLineno(p2, r1.state, sq.lineno, r1.lineno);
    OutputAppend(p1, p2, Initial, 1);
  }

  /** The state after any input is the one its last list tag selects: a
      closing list tag always returns to INITIAL, with no stack of the
      lists still open. */
  lemma {:induction false} StateIsLastListTag(p: seq<Piece>, s: LexState, n: nat)
    ensures Lex(p, s, n).state == ListStateAfter(p, s)
    decreases |p|
  {
    if |p| > 0 {
      var init := p[..|p| - 1];
      var last := p[|p| - 1];
      assert init + [last] == p;
      LexAppend(init, [last], s, n);
      StateIsLastListTag(init, s, n);
    }
  }

  /** What `<li>` becomes depends only on the last list tag before it:
      "1. " after `<ol>`, "* " after `<ul>`, and, in INITIAL, the text "li"
      between two illegal characters. */
  lemma ListItemMarker(p: seq<Piece>, n: nat)
    ensures var s := ListStateAfter(p, Initial);
            Render(p + [Tag(Li, false)])
            == Render(p) + (if s == InOl then "1. " else if s == InUl then "* " else "li")
  {
    OutputAppend(p, [Tag(Li, false)], Initial, 1);
    StateIsLastListTag(p, Initial, 1);
  }

  /** Inner lists do not nest: after `<ol><ul></ul>` the lexer is back in
      INITIAL, not in ol. */
  lemma NoListNesting()
    ensures Render([Tag(Ol, false), Tag(Ul, false), Tag(Ul, true), Tag(Li, false)]) == "\n\n\nli"
  {
    var p := [Tag(Ol, false), Tag(Ul, false), Tag(Ul, true)];
    ListItemMarker(p, 1);
    assert ListStateAfter(p, Initial) == Initial;
    assert p + [Tag(Li, false)] == [Tag(Ol, false), Tag(Ul, false), Tag(Ul, true), Tag(Li, false)];
    assert Render(p) == "\n\n\n";
  }

  /** The opening and closing forms of a tag act alike, in every state,
      exactly for the paired inline tags p, em, strong, code and strike;
      these also leave the state alone. */
  lemma PairedTagsAgree(s: LexState, name: TagName)
    ensures Rule(s, name, false) == Rule(s, name, true) <==> name in {P, Em, Strong, Code, Strike}
    ensures name in {P, Em, Strong, Code, Strike} ==> Rule(s, name, false).Some? && Rule(s, name, false).value.next == s
  {
  }

  /** Only list tags change the state; `</ol>` and `</ul>` return to
      INITIAL from any state with a newline. */
  lemma OnlyListTagsSwitchState(s: LexState, name: TagName, closing: bool)
    ensures Rule(s, name, closing).Some? && name != Ol && name != Ul ==> Rule(s, name, closing).value.next == s
    ensures (name == Ol || name == Ul) && closing ==> Rule(s, name, closing) == Some(Action(RLIST, "\n", Initial))
  {
  }

  // ----- the lexer object -----

  /** The PLY lexer object: its current state, its `lineno`, and the tokens
      it has yielded so far. */
  class Lexer {
    var state: LexState
    var lineno: nat
    var tokens: seq<Token>

    /** `lex.lex()`: INITIAL, at line 1, nothing yielded. */
    constructor()
      ensures state == Initial && lineno == 1 && tokens == []
    {
      state := Initial;
      lineno := 1;
      tokens := [];
    }

    /** Runs the rule that matches one piece: a tag rule sets the value and
        may `begin` a new state, `t_newline` bumps `lineno`, `t_ignore` and
        `t_error` skip. */
    method Feed(p: Piece)
      modifies this
      ensures var st := Step(old(state), old(lineno), p);
              state == st.state && lineno == st.lineno && tokens == old(tokens) + Emitted(st.token)
    {
      match p
      case Tag(name, closing) =>
        var a := Rule(state, name, closing);
        if a.Some? {
          tokens := tokens + [Token(a.value.kind, a.value.value, lineno)];
          state := a.value.next;
        } else {
          tokens := tokens + [Token(TEXT, UnmatchedText(name, closing), lineno)];
        }
      case Text(t) =>
        tokens := tokens + [Token(TEXT, t, lineno)];
      case Newlines(k) =>
        lineno := lineno + k;
      case Blank(_) =>
      case Illegal(_) =>
    }

    /** Drains the input: the tokens yielded are those of `Lex` from the
        current state and line, and the lexer ends where `Lex` ends. */
    method Run(pieces: seq<Piece>)
      modifies this
      ensures var r := Lex(pieces, old(state), old(lineno));
              tokens == old(tokens) + r.tokens && state == r.state && lineno == r.lineno
    {
      ghost var goal := Lex(pieces, state, lineno);
      ghost var t0 := tokens;
      var i := 0;
      while i < |pieces|
        invariant 0 <= i <= |pieces|
        invariant var r := Lex(pieces[i..], state, lineno);
                  tokens + r.tokens == t0 + goal.tokens && r.state == goal.state && r.lineno == goal.lineno
      {
        assert pieces[i..][0] == pieces[i] && pieces[i..][1..] == pieces[i + 1..];
        Feed(pieces[i]);
        i := i + 1;
      }
      assert pieces[i..] == [];
    }

    function Output(): string
      reads this
    {
      Join(tokens)
    }
  }

  /** The program's main path: a fresh lexer over the whole input, then
      the join of the token values. */
  method Convert(pieces: seq<Piece>) returns (out: string)
    ensures out == Render(pieces)
  {
    var lexer := new Lexer();
    lexer.Run(pieces);
    assert lexer.tokens == Lex(pieces, Initial, 1).tokens;
    out := lexer.Output();
  }
}

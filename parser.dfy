/** `parse` of `src/parser.rs`: a token vector becomes a sequence of
    expressions. Brackets are matched with a stack of open frames (`blocks`)
    beside a stack of bracket kinds (`list_mode`); `)` closes a frame into a
    `Block`, `]` into a `List`, and any mismatch or unclosed opener makes the
    result empty. */
module Parser {

  import opened Results
  import opened Numerics
  import opened Exprs

  /** The lexer's tokens. Bracket structure is left to the parser. */
  datatype Token =
    | Integer(i: I64)
    | Float(f: F64)
    | String(s: string)
    | Symbol(name: string)
    | Call(name: string)
    | Nil
    | ParenStart
    | ParenEnd
    | BracketStart
    | BracketEnd

  predicate IsBracket(t: Token)
  {
    t.ParenStart? || t.ParenEnd? || t.BracketStart? || t.BracketEnd?
  }

  /** The kind of bracket that opened a frame. */
  datatype ListMode = Paren | Bracket

  /** The expression a non-bracket token stands for: the calls `true` and
      `false` become booleans, every other token keeps its variant. */
  function Lift(t: Token): (e: Expr)
    requires !IsBracket(t)
  {
    match t
    case Integer(i) => Expr.Integer(i)
    case Float(f) => Expr.Float(f)
    case String(s) => Expr.String(s)
    case Symbol(s) => Expr.Symbol(s)
    case Call(s) =>
      if s == "true" then Expr.Boolean(true)
      else if s == "false" then Expr.Boolean(false)
      else Expr.Call(s)
    case Nil => Expr.Nil
  }

  // ----- the inverse direction: the tokens an expression is written with -----

  /** The tokens that spell `e`. A boolean is spelled as the call `true` or
      `false`, since the lexer has no boolean token. */
  function TokensOf(e: Expr): seq<Token>
    decreases e, 1
  {
    match e
    case Integer(i) => [Token.Integer(i)]
    case Float(f) => [Token.Float(f)]
    case String(s) => [Token.String(s)]
    case Boolean(b) => [Token.Call(if b then "true" else "false")]
    case Symbol(s) => [Token.Symbol(s)]
    case Call(s) => [Token.Call(s)]
    case Block(xs) => [ParenStart] + TokensOfAll(xs) + [ParenEnd]
    case List(xs) => [BracketStart] + TokensOfAll(xs) + [BracketEnd]
    case Nil => [Token.Nil]
  }

  function TokensOfAll(es: seq<Expr>): seq<Token>
    decreases es, 0
  {
    if es == [] then [] else TokensOfAll(es[..|es| - 1]) + TokensOf(es[|es| - 1])
  }

  /** `e` can come out of the parser: it holds no call named `true` or
      `false`, since those are turned into booleans. */
  predicate Parsable(e: Expr)
  {
    match e
    case Call(s) => s != "true" && s != "false"
    case Block(xs) => forall k :: 0 <= k < |xs| ==> Parsable(xs[k])
    case List(xs) => forall k :: 0 <= k < |xs| ==> Parsable(xs[k])
    case _ => true
  }

  predicate AllParsable(es: seq<Expr>)
  {
    forall k :: 0 <= k < |es| ==> Parsable(es[k])
  }

  // ----- bracket matching on its own -----

  /** The brackets of `ts` match, given the kinds still open in `open`
      (innermost last), with nothing left open at the end. */
  predicate Matched(ts: seq<Token>, open: seq<ListMode>)
    decreases ts
  {
    if ts == [] then open == []
    else match ts[0]
      case ParenStart => Matched(ts[1..], open + [Paren])
      case BracketStart => Matched(ts[1..], open + [Bracket])
      case ParenEnd => open != [] && open[|open| - 1] == Paren && Matched(ts[1..], open[..|open| - 1])
      case BracketEnd => open != [] && open[|open| - 1] == Bracket && Matched(ts[1..], open[..|open| - 1])
      case _ => Matched(ts[1..], open)
  }

  predicate Balanced(ts: seq<Token>)
  {
    Matched(ts, [])
  }

  // ----- the frame stack, one token at a time -----

  /** The parser's two stacks: the open frames, outermost first, and the
      kind of bracket that opened each frame but the outermost. */
  datatype Frames = Frames(blocks: seq<seq<Expr>>, modes: seq<ListMode>)

  /** The stacks are in step: one frame more than open brackets, so there
      is always an innermost frame to append to. */
  predicate Valid(st: Frames)
  {
    |st.blocks| == |st.modes| + 1
  }

  const Start: Frames := Frames([[]], [])

  /** `es` appended to the innermost frame. */
  function AppendTop(st: Frames, es: seq<Expr>): (r: Frames)
    requires Valid(st)
    ensures Valid(r)
  {
    var n := |st.blocks|;
    st.(blocks := st.blocks[n - 1 := st.blocks[n - 1] + es])
  }

  /** A closer of kind `m`: when the innermost open bracket is of that kind,
      its frame is popped, wrapped, and appended to the frame around it. */
  function Close(st: Frames, m: ListMode): (r: Option<Frames>)
    requires Valid(st)
    ensures r.Some? ==> Valid(r.value)
  {
    var n := |st.blocks|;
    if st.modes != [] && st.modes[n - 2] == m then
      var inner := st.blocks[n - 1];
      var wrapped := if m == Paren then Expr.Block(inner) else Expr.List(inner);
      Some(AppendTop(Frames(st.blocks[..n - 1], st.modes[..n - 2]), [wrapped]))
    else
      None
  }

  /** One iteration of the parser's loop; `None` is the early return on a
      mismatched closer. */
  function Feed(st: Frames, t: Token): (r: Option<Frames>)
    requires Valid(st)
    ensures r.Some? ==> Valid(r.value)
  {
    match t
    case ParenStart => Some(Frames(st.blocks + [[]], st.modes + [Paren]))
    case BracketStart => Some(Frames(st.blocks + [[]], st.modes + [Bracket]))
    case ParenEnd => Close(st, Paren)
    case BracketEnd => Close(st, Bracket)
    case _ => Some(AppendTop(st, [Lift(t)]))
  }

  function FeedAll(st: Frames, ts: seq<Token>): (r: Option<Frames>)
    requires Valid(st)
    ensures r.Some? ==> Valid(r.value)
    decreases ts
  {
    if ts == [] then Some(st)
    else match Feed(st, ts[0])
      case None => None
      case Some(next) => FeedAll(next, ts[1..])
  }

  /** What `parse` returns, with `None` for the empty vector of a failure. */
  function ParseTokens(ts: seq<Token>): Option<seq<Expr>>
  {
    match FeedAll(Start, ts)
    case None => None
    case Some(st) => if |st.blocks| == 1 then Some(st.blocks[0]) else None
  }

  /** Feeding two runs of tokens is feeding the first, then the second. */
  lemma {:induction false} FeedAllAppend(st: Frames, a: seq<Token>, b: seq<Token>)
    requires Valid(st)
    ensures FeedAll(st, a + b) == match FeedAll(st, a) case None => None case Some(mid) => FeedAll(mid, b)
    decreases a
  {
    if a == [] {
      assert a + b == b;
    } else {
      assert (a + b)[0] == a[0] && (a + b)[1..] == a[1..] + b;
      match Feed(st, a[0])
      case None =>
        assert FeedAll(st, a + b) == None;
      case Some(next) =>
        assert FeedAll(st, a + b) == FeedAll(next, a[1..] + b);
        assert FeedAll(st, a) == FeedAll(next, a[1..]);
        FeedAllAppend(next, a[1..], b);
    }
  }

  // ----- the imperative parser -----

  /** `parse`. Its result is the fold `ParseTokens` (empty on failure); for
      balanced brackets it spells the input back exactly, and for unbalanced
      or mismatched brackets it is empty. */
  method Parse(tokens: seq<Token>) returns (exprs: seq<Expr>)
    ensures exprs == ParseTokens(tokens).GetOr([])
    ensures Balanced(tokens) ==> AllParsable(exprs) && TokensOfAll(exprs) == tokens
    ensures !Balanced(tokens) ==> exprs == []
  {
    ParseBalanced(tokens);
    if ParseTokens(tokens).Some? {
      ParseSound(tokens);
    }
    var blocks: seq<seq<Expr>> := [[]];
    var listMode: seq<ListMode> := [];
    for i := 0 to |tokens|
      invariant |blocks| == |listMode| + 1
      invariant FeedAll(Start, tokens[..i]) == Some(Frames(blocks, listMode))
    {
      var token := tokens[i];
      FeedStep(tokens, i, Frames(blocks, listMode));
      match token
      case ParenStart =>
        blocks := blocks + [[]];
        listMode := listMode + [Paren];
      case BracketStart =>
        blocks := blocks + [[]];
        listMode := listMode + [Bracket];
      case ParenEnd =>
        var popped := if listMode == [] then None else Some(listMode[|listMode| - 1]);
        if popped == Some(Paren) {
          listMode := listMode[..|listMode| - 1];
          var block := blocks[|blocks| - 1];
          blocks := blocks[..|blocks| - 1];
          blocks := blocks[|blocks| - 1 := blocks[|blocks| - 1] + [Expr.Block(block)]];
        } else {
          FeedFailed(tokens, i + 1);
          return [];
        }
      case BracketEnd =>
        var popped := if listMode == [] then None else Some(listMode[|listMode| - 1]);
        if popped == Some(Bracket) {
          listMode := listMode[..|listMode| - 1];
          var block := blocks[|blocks| - 1];
          blocks := blocks[..|blocks| - 1];
          blocks := blocks[|blocks| - 1 := blocks[|blocks| - 1] + [Expr.List(block)]];
        } else {
          FeedFailed(tokens, i + 1);
          return [];
        }
      case _ =>
        blocks := blocks[|blocks| - 1 := blocks[|blocks| - 1] + [Lift(token)]];
    }
    assert tokens[..|tokens|] == tokens;
    if |blocks| != 1 {
      return [];
    }
    exprs := blocks[0];
  }

  /** One more token of the input is one more `Feed`. */
  lemma FeedStep(ts: seq<Token>, i: nat, st: Frames)
    requires i < |ts| && Valid(st) && FeedAll(Start, ts[..i]) == Some(st)
    ensures FeedAll(Start, ts[..i + 1]) == Feed(st, ts[i])
  {
    assert ts[..i + 1] == ts[..i] + [ts[i]];
    FeedAllAppend(Start, ts[..i], [ts[i]]);
    FeedAllAppend(st, [ts[i]], []);
  }

  /** Once a prefix of the input fails, the whole input fails. */
  lemma FeedFailed(ts: seq<Token>, i: nat)
    requires i <= |ts| && FeedAll(Start, ts[..i]) == None
    ensures FeedAll(Start, ts) == None
  {
    FeedAllAppend(Start, ts[..i], ts[i..]);
    assert ts[..i] + ts[i..] == ts;
  }

  // ----- success exactly when the brackets match -----

  lemma {:induction false} FeedAllMatched(st: Frames, ts: seq<Token>)
    requires Valid(st)
    ensures (FeedAll(st, ts).Some? && FeedAll(st, ts).value.modes == []) <==> Matched(ts, st.modes)
    decreases ts
  {
    if ts != [] {
      match Feed(st, ts[0])
      case None =>
      case Some(next) => FeedAllMatched(next, ts[1..]);
    }
  }

  /** `parse` fails exactly on token streams whose brackets do not match. */
  lemma ParseBalanced(ts: seq<Token>)
    ensures ParseTokens(ts).Some? <==> Balanced(ts)
  {
    FeedAllMatched(Start, ts);
  }

  // ----- soundness: a successful parse spells its input back -----

  function Opener(m: ListMode): Token
  {
    if m == Paren then ParenStart else BracketStart
  }

  /** The tokens behind the frames below the innermost one, each followed by
      the bracket that entered the next. */
  function Outer(blocks: seq<seq<Expr>>, modes: seq<ListMode>): seq<Token>
    requires |blocks| == |modes|
  {
    if blocks == [] then []
    else
      var n := |blocks|;
      Outer(blocks[..n - 1], modes[..n - 1]) + TokensOfAll(blocks[n - 1]) + [Opener(modes[n - 1])]
  }

  /** The tokens the parser has consumed to reach `st`. */
  function Consumed(st: Frames): seq<Token>
    requires Valid(st)
  {
    var n := |st.blocks|;
    Outer(st.blocks[..n - 1], st.modes) + TokensOfAll(st.blocks[n - 1])
  }

  predicate FramesParsable(st: Frames)
  {
    forall j :: 0 <= j < |st.blocks| ==> AllParsable(st.blocks[j])
  }

  lemma {:induction false} TokensOfAllAppend(a: seq<Expr>, b: seq<Expr>)
    ensures TokensOfAll(a + b) == TokensOfAll(a) + TokensOfAll(b)
    decreases |b|
  {
    if b == [] {
      assert a + b == a;
    } else {
      var n := |b|;
      assert (a + b)[..|a + b| - 1] == a + b[..n - 1] && (a + b)[|a + b| - 1] == b[n - 1];
      assert TokensOfAll(a + b) == TokensOfAll(a + b[..n - 1]) + TokensOf(b[n - 1]);
      TokensOfAllAppend(a, b[..n - 1]);
      Regroup3(TokensOfAll(a), TokensOfAll(b[..n - 1]), TokensOf(b[n - 1]));
    }
  }

  lemma LiftSpelled(t: Token)
    requires !IsBracket(t)
    ensures TokensOf(Lift(t)) == [t] && Parsable(Lift(t))
  {
  }

  lemma FeedConsumes(st: Frames, t: Token)
    requires Valid(st) && FramesParsable(st) && Feed(st, t).Some?
    ensures Consumed(Feed(st, t).value) == Consumed(st) + [t]
    ensures FramesParsable(Feed(st, t).value)
  {
    match t
    case ParenStart => OpenConsumes(st, Paren);
    case BracketStart => OpenConsumes(st, Bracket);
    case ParenEnd => CloseConsumes(st, Paren);
    case BracketEnd => CloseConsumes(st, Bracket);
    case _ => AtomConsumes(st, t);
  }

  /** An opener pushes an empty frame: the consumed tokens grow by it. */
  lemma OpenConsumes(st: Frames, m: ListMode)
    requires Valid(st) && FramesParsable(st)
    ensures var next := Frames(st.blocks + [[]], st.modes + [m]);
      Consumed(next) == Consumed(st) + [Opener(m)] && FramesParsable(next)
  {
    var n := |st.blocks|;
    var next := Frames(st.blocks + [[]], st.modes + [m]);
    assert next.blocks[..n] == st.blocks == st.blocks[..n - 1] + [st.blocks[n - 1]];
    assert next.blocks[n] == [] && TokensOfAll([]) == [];
    OuterSnoc(st.blocks[..n - 1], st.modes, st.blocks[n - 1], m);
    assert Consumed(next) == Outer(st.blocks, st.modes + [m]);
    assert FramesParsable(next) by {
      forall j | 0 <= j < |next.blocks| ensures AllParsable(next.blocks[j]) {
        if j < n {
          assert next.blocks[j] == st.blocks[j];
        }
      }
    }
  }

  /** A token that is not a bracket is appended to the innermost frame. */
  lemma AtomConsumes(st: Frames, t: Token)
    requires Valid(st) && FramesParsable(st) && !IsBracket(t)
    ensures var next := AppendTop(st, [Lift(t)]);
      Consumed(next) == Consumed(st) + [t] && FramesParsable(next)
  {
    var n := |st.blocks|;
    var next := AppendTop(st, [Lift(t)]);
    LiftSpelled(t);
    SpellSnoc(st.blocks[n - 1], Lift(t));
    assert next.blocks[..n - 1] == st.blocks[..n - 1];
    assert next.blocks[n - 1] == st.blocks[n - 1] + [Lift(t)];
    assert FramesParsable(next) by {
      forall j | 0 <= j < |next.blocks| ensures AllParsable(next.blocks[j]) {
        if j < n - 1 {
          assert next.blocks[j] == st.blocks[j];
        } else {
          assert AllParsable(st.blocks[n - 1]);
        }
      }
    }
  }

  lemma CloseConsumes(st: Frames, m: ListMode)
    requires Valid(st) && FramesParsable(st) && Close(st, m).Some?
    ensures Consumed(Close(st, m).value) == Consumed(st) + [if m == Paren then ParenEnd else BracketEnd]
    ensures FramesParsable(Close(st, m).value)
  {
    var n := |st.blocks|;
    var outer, parent, inner := st.blocks[..n - 2], st.blocks[n - 2], st.blocks[n - 1];
    var modes := st.modes[..n - 2];
    var closer := if m == Paren then ParenEnd else BracketEnd;
    var wrapped := if m == Paren then Expr.Block(inner) else Expr.List(inner);
    var next := Close(st, m).value;
    CloseShape(st, m);
    assert st.blocks[..n - 1] == outer + [parent];
    assert st.modes == modes + [m];
    OuterSnoc(outer, modes, parent, m);
    assert Consumed(st) == Outer(outer, modes) + TokensOfAll(parent) + [Opener(m)] + TokensOfAll(inner);
    SpellSnoc(parent, wrapped);
    assert TokensOf(wrapped) == [Opener(m)] + TokensOfAll(inner) + [closer];
    assert Consumed(next) == Outer(outer, modes) + TokensOfAll(parent + [wrapped]) by {
      assert next.blocks[..n - 2] == outer;
    }
    Regroup(Outer(outer, modes), TokensOfAll(parent), Opener(m), TokensOfAll(inner), closer);
    CloseParsable(st, m);
  }

  lemma Regroup3(a: seq<Token>, b: seq<Token>, c: seq<Token>)
    ensures a + b + c == a + (b + c)
  {
  }

  lemma Regroup4(open: Token, b: seq<Token>, close: Token, rest: seq<Token>)
    ensures [open] + b + [close] + rest == [open] + (b + ([close] + rest))
  {
  }

  lemma Regroup(a: seq<Token>, b: seq<Token>, open: Token, c: seq<Token>, close: Token)
    ensures a + (b + ([open] + c + [close])) == a + b + [open] + c + [close]
  {
  }

  /** The frames after a successful close: the parent frame gains the
      wrapped innermost frame, and the stacks shrink by one. */
  lemma CloseShape(st: Frames, m: ListMode)
    requires Valid(st) && Close(st, m).Some?
    ensures var n := |st.blocks|;
      var wrapped := if m == Paren then Expr.Block(st.blocks[n - 1]) else Expr.List(st.blocks[n - 1]);
      Close(st, m).value == Frames(st.blocks[..n - 2] + [st.blocks[n - 2] + [wrapped]], st.modes[..n - 2])
  {
    var n := |st.blocks|;
    var popped := st.blocks[..n - 1];
    assert popped == st.blocks[..n - 2] + [st.blocks[n - 2]];
    assert popped[n - 2 := popped[n - 2] + [if m == Paren then Expr.Block(st.blocks[n - 1]) else Expr.List(st.blocks[n - 1])]]
        == st.blocks[..n - 2] + [st.blocks[n - 2] + [if m == Paren then Expr.Block(st.blocks[n - 1]) else Expr.List(st.blocks[n - 1])]];
  }

  lemma OuterSnoc(blocks: seq<seq<Expr>>, modes: seq<ListMode>, b: seq<Expr>, m: ListMode)
    requires |blocks| == |modes|
    ensures Outer(blocks + [b], modes + [m]) == Outer(blocks, modes) + TokensOfAll(b) + [Opener(m)]
  {
    assert (blocks + [b])[..|blocks|] == blocks;
    assert (modes + [m])[..|modes|] == modes;
  }

  lemma SpellSnoc(es: seq<Expr>, e: Expr)
    ensures TokensOfAll(es + [e]) == TokensOfAll(es) + TokensOf(e)
  {
    assert (es + [e])[..|es|] == es;
  }

  lemma CloseParsable(st: Frames, m: ListMode)
    requires Valid(st) && FramesParsable(st) && Close(st, m).Some?
    ensures FramesParsable(Close(st, m).value)
  {
    var n := |st.blocks|;
    var next := Close(st, m).value;
    assert AllParsable(st.blocks[n - 1]);
    forall j | 0 <= j < |next.blocks| ensures AllParsable(next.blocks[j]) {
      if j == n - 2 {
        assert AllParsable(st.blocks[n - 2]);
      } else {
        assert next.blocks[j] == st.blocks[j];
      }
    }
  }

  lemma {:induction false} FeedAllConsumes(st: Frames, ts: seq<Token>)
    requires Valid(st) && FramesParsable(st) && FeedAll(st, ts).Some?
    ensures Consumed(FeedAll(st, ts).value) == Consumed(st) + ts
    ensures FramesParsable(FeedAll(st, ts).value)
    decreases ts
  {
    if ts == [] {
      assert Consumed(st) + ts == Consumed(st);
    } else {
      var next := Feed(st, ts[0]).value;
      assert FeedAll(st, ts) == FeedAll(next, ts[1..]);
      FeedConsumes(st, ts[0]);
      FeedAllConsumes(next, ts[1..]);
      assert [ts[0]] + ts[1..] == ts;
      Regroup3(Consumed(st), [ts[0]], ts[1..]);
    }
  }

  /** A successful parse yields parsable expressions that spell the input
      back token for token. */
  lemma ParseSound(ts: seq<Token>)
    requires ParseTokens(ts).Some?
    ensures AllParsable(ParseTokens(ts).value)
    ensures TokensOfAll(ParseTokens(ts).value) == ts
  {
    assert Consumed(Start) == [] by {
      assert Start.blocks[..0] == [];
    }
    FeedAllConsumes(Start, ts);
    var st := FeedAll(Start, ts).value;
    assert |st.blocks| == 1 && ParseTokens(ts).value == st.blocks[0];
    assert st.blocks[..0] == [] && st.modes == [];
    assert Consumed(st) == TokensOfAll(st.blocks[0]);
  }

  // ----- completeness: spelling then parsing gives the expressions back -----

  lemma {:induction false} FeedSpelled(st: Frames, e: Expr, rest: seq<Token>)
    requires Valid(st) && Parsable(e)
    ensures FeedAll(st, TokensOf(e) + rest) == FeedAll(AppendTop(st, [e]), rest)
    decreases e, 1
  {
    match e
    case Block(xs) =>
      FeedSpelledAll(Frames(st.blocks + [[]], st.modes + [Paren]), xs, [ParenEnd] + rest);
      FeedSpelledComposite(st, Paren, xs, rest);
    case List(xs) =>
      FeedSpelledAll(Frames(st.blocks + [[]], st.modes + [Bracket]), xs, [BracketEnd] + rest);
      FeedSpelledComposite(st, Bracket, xs, rest);
    case _ =>
      assert (TokensOf(e) + rest)[1..] == rest;
  }

  /** The step of `FeedSpelled` for a block or a list: the opener pushes a
      frame, the elements fill it, and the closer wraps it into the parent. */
  lemma FeedSpelledComposite(st: Frames, m: ListMode, xs: seq<Expr>, rest: seq<Token>)
    requires Valid(st)
    requires var entered := Frames(st.blocks + [[]], st.modes + [m]);
      FeedAll(entered, TokensOfAll(xs) + ([if m == Paren then ParenEnd else BracketEnd] + rest))
        == FeedAll(AppendTop(entered, xs), [if m == Paren then ParenEnd else BracketEnd] + rest)
    ensures var wrapped := if m == Paren then Expr.Block(xs) else Expr.List(xs);
      FeedAll(st, TokensOf(wrapped) + rest) == FeedAll(AppendTop(st, [wrapped]), rest)
  {
    var closer := if m == Paren then ParenEnd else BracketEnd;
    var wrapped := if m == Paren then Expr.Block(xs) else Expr.List(xs);
    var entered := Frames(st.blocks + [[]], st.modes + [m]);
    var body := TokensOfAll(xs) + ([closer] + rest);
    assert TokensOf(wrapped) == [Opener(m)] + TokensOfAll(xs) + [closer];
    Regroup4(Opener(m), TokensOfAll(xs), closer, rest);
    FeedOpener(st, m, body);
    FeedCloser(st, m, xs, rest);
  }

  /** An opener pushes an empty frame of its kind. */
  lemma FeedOpener(st: Frames, m: ListMode, body: seq<Token>)
    requires Valid(st)
    ensures FeedAll(st, [Opener(m)] + body) == FeedAll(Frames(st.blocks + [[]], st.modes + [m]), body)
  {
    var tokens := [Opener(m)] + body;
    assert tokens[0] == Opener(m) && tokens[1..] == body;
  }

  /** The matching closer wraps the filled frame into the one around it. */
  lemma FeedCloser(st: Frames, m: ListMode, xs: seq<Expr>, rest: seq<Token>)
    requires Valid(st)
    ensures var filled := AppendTop(Frames(st.blocks + [[]], st.modes + [m]), xs);
      var wrapped := if m == Paren then Expr.Block(xs) else Expr.List(xs);
      FeedAll(filled, [if m == Paren then ParenEnd else BracketEnd] + rest)
        == FeedAll(AppendTop(st, [wrapped]), rest)
  {
    var closer := if m == Paren then ParenEnd else BracketEnd;
    var wrapped := if m == Paren then Expr.Block(xs) else Expr.List(xs);
    var filled := AppendTop(Frames(st.blocks + [[]], st.modes + [m]), xs);
    assert [] + xs == xs;
    assert filled.blocks == st.blocks + [xs];
    assert filled.blocks[..|filled.blocks| - 1] == st.blocks;
    assert filled.modes[..|filled.modes| - 1] == st.modes;
    assert Feed(filled, closer) == Some(AppendTop(st, [wrapped]));
    assert ([closer] + rest)[0] == closer && ([closer] + rest)[1..] == rest;
  }

  lemma {:induction false} FeedSpelledAll(st: Frames, es: seq<Expr>, rest: seq<Token>)
    requires Valid(st) && AllParsable(es)
    ensures FeedAll(st, TokensOfAll(es) + rest) == FeedAll(AppendTop(st, es), rest)
    decreases es, 0
  {
    var n := |st.blocks|;
    if es == [] {
      assert st.blocks[n - 1] + es == st.blocks[n - 1];
      assert st.blocks[n - 1 := st.blocks[n - 1]] == st.blocks;
      assert AppendTop(st, es) == st;
      assert TokensOfAll(es) + rest == rest;
    } else {
      var init, last := es[..|es| - 1], es[|es| - 1];
      assert es == init + [last];
      assert AllParsable(init) && Parsable(last);
      assert TokensOfAll(es) + rest == TokensOfAll(init) + (TokensOf(last) + rest);
      FeedSpelledAll(st, init, TokensOf(last) + rest);
      var mid := AppendTop(st, init);
      FeedSpelled(mid, last, rest);
      assert AppendTop(mid, [last]).blocks == st.blocks[n - 1 := st.blocks[n - 1] + init + [last]];
      assert st.blocks[n - 1] + init + [last] == st.blocks[n - 1] + es;
    }
  }

  /** Spelling parsable expressions out as tokens and parsing them gives the
      same expressions back. */
  lemma ParseComplete(es: seq<Expr>)
    requires AllParsable(es)
    ensures ParseTokens(TokensOfAll(es)) == Some(es)
  {
    FeedSpelledAll(Start, es, []);
    assert TokensOfAll(es) + [] == TokensOfAll(es);
    assert Start.blocks[0] + es == es;
  }

  /** Different parsable expression sequences are spelled differently, so a
      token stream has at most one parse. */
  lemma SpellingInjective(a: seq<Expr>, b: seq<Expr>)
    requires AllParsable(a) && AllParsable(b) && TokensOfAll(a) == TokensOfAll(b)
    ensures a == b
  {
    ParseComplete(a);
    ParseComplete(b);
  }

  // ----- the unit tests of `src/parser.rs` -----

  lemma SpellCons(e: Expr, es: seq<Expr>)
    ensures TokensOfAll([e] + es) == TokensOf(e) + TokensOfAll(es)
  {
    TokensOfAllAppend([e], es);
    SpellSnoc([], e);
    assert [] + [e] == [e];
  }

  lemma SpellOne(x: Expr)
    ensures TokensOfAll([x]) == TokensOf(x)
  {
    assert [x] + [] == [x];
    SpellCons(x, []);
  }

  lemma SpellTwo(x: Expr, y: Expr)
    ensures TokensOfAll([x, y]) == TokensOf(x) + TokensOf(y)
  {
    assert [x] + [y] == [x, y];
    SpellCons(x, [y]);
    SpellOne(y);
  }

  lemma SpellThree(x: Expr, y: Expr, z: Expr)
    ensures TokensOfAll([x, y, z]) == TokensOf(x) + TokensOf(y) + TokensOf(z)
  {
    assert [x] + [y, z] == [x, y, z];
    SpellCons(x, [y, z]);
    SpellTwo(y, z);
  }

  lemma ParseBlockExample()
    ensures ParseTokens([ParenStart, Token.Integer(1), Token.Integer(2), Token.Integer(3), ParenEnd])
         == Some([Expr.Block([Expr.Integer(1), Expr.Integer(2), Expr.Integer(3)])])
  {
    var b := Expr.Block([Expr.Integer(1), Expr.Integer(2), Expr.Integer(3)]);
    SpellThree(Expr.Integer(1), Expr.Integer(2), Expr.Integer(3));
    SpellOne(b);
    assert TokensOfAll([b]) == [ParenStart, Token.Integer(1), Token.Integer(2), Token.Integer(3), ParenEnd];
    ParseComplete([b]);
  }

  lemma ParseListExample()
    ensures ParseTokens([BracketStart, Token.Integer(1), Token.Integer(2), Token.Integer(3), BracketEnd])
         == Some([Expr.List([Expr.Integer(1), Expr.Integer(2), Expr.Integer(3)])])
  {
    var l := Expr.List([Expr.Integer(1), Expr.Integer(2), Expr.Integer(3)]);
    SpellThree(Expr.Integer(1), Expr.Integer(2), Expr.Integer(3));
    SpellOne(l);
    assert TokensOfAll([l]) == [BracketStart, Token.Integer(1), Token.Integer(2), Token.Integer(3), BracketEnd];
    ParseComplete([l]);
  }

  lemma ParseBlockAtBeginningExample()
    ensures ParseTokens([ParenStart, Token.Integer(1), Token.Integer(2), Token.Integer(3), ParenEnd,
                         Token.Integer(4), Token.Integer(5), Token.Integer(6)])
         == Some([Expr.Block([Expr.Integer(1), Expr.Integer(2), Expr.Integer(3)]),
                  Expr.Integer(4), Expr.Integer(5), Expr.Integer(6)])
  {
    var b := Expr.Block([Expr.Integer(1), Expr.Integer(2), Expr.Integer(3)]);
    var four, five, six := Expr.Integer(4), Expr.Integer(5), Expr.Integer(6);
    SpellThree(Expr.Integer(1), Expr.Integer(2), Expr.Integer(3));
    SpellThree(four, five, six);
    assert [b] + [four, five, six] == [b, four, five, six];
    SpellCons(b, [four, five, six]);
    assert TokensOfAll([b, four, five, six])
        == [ParenStart, Token.Integer(1), Token.Integer(2), Token.Integer(3), ParenEnd,
            Token.Integer(4), Token.Integer(5), Token.Integer(6)];
    ParseComplete([b, four, five, six]);
  }

  /** `(1 x 4)` for an inner composite `x` spelled `ix`, with its spelling
      and parsability. */
  lemma SpellNested(inner: Expr, ix: seq<Token>)
    requires Parsable(inner) && TokensOf(inner) == ix
    ensures var outer := Expr.Block([Expr.Integer(1), inner, Expr.Integer(4)]);
      && AllParsable([outer])
      && TokensOfAll([outer]) == [ParenStart, Token.Integer(1)] + ix + [Token.Integer(4), ParenEnd]
  {
    var outer := Expr.Block([Expr.Integer(1), inner, Expr.Integer(4)]);
    SpellThree(Expr.Integer(1), inner, Expr.Integer(4));
    assert TokensOfAll([Expr.Integer(1), inner, Expr.Integer(4)]) == [Token.Integer(1)] + ix + [Token.Integer(4)];
    SpellOne(outer);
    assert TokensOf(outer) == [ParenStart] + ([Token.Integer(1)] + ix + [Token.Integer(4)]) + [ParenEnd];
    RegroupAround(ParenStart, Token.Integer(1), ix, Token.Integer(4), ParenEnd);
    assert Parsable(outer);
  }

  lemma RegroupAround(open: Token, a: Token, mid: seq<Token>, b: Token, close: Token)
    ensures [open] + ([a] + mid + [b]) + [close] == [open, a] + mid + [b, close]
  {
  }

  lemma ParseNestedExample()
    ensures ParseTokens([ParenStart, Token.Integer(1), ParenStart, Token.Integer(2), Token.Integer(3), ParenEnd,
                         Token.Integer(4), ParenEnd])
         == Some([Expr.Block([Expr.Integer(1), Expr.Block([Expr.Integer(2), Expr.Integer(3)]), Expr.Integer(4)])])
  {
    var inner := Expr.Block([Expr.Integer(2), Expr.Integer(3)]);
    SpellTwo(Expr.Integer(2), Expr.Integer(3));
    var ix := [ParenStart, Token.Integer(2), Token.Integer(3), ParenEnd];
    SpellNested(inner, ix);
    assert [ParenStart, Token.Integer(1)] + ix + [Token.Integer(4), ParenEnd]
        == [ParenStart, Token.Integer(1), ParenStart, Token.Integer(2), Token.Integer(3), ParenEnd, Token.Integer(4), ParenEnd];
    ParseComplete([Expr.Block([Expr.Integer(1), inner, Expr.Integer(4)])]);
  }

  lemma ParseBlockAndListExample()
    ensures ParseTokens([ParenStart, Token.Integer(1), BracketStart, Token.Integer(2), Token.Integer(3), BracketEnd,
                         Token.Integer(4), ParenEnd])
         == Some([Expr.Block([Expr.Integer(1), Expr.List([Expr.Integer(2), Expr.Integer(3)]), Expr.Integer(4)])])
  {
    var inner := Expr.List([Expr.Integer(2), Expr.Integer(3)]);
    SpellTwo(Expr.Integer(2), Expr.Integer(3));
    var ix := [BracketStart, Token.Integer(2), Token.Integer(3), BracketEnd];
    SpellNested(inner, ix);
    assert [ParenStart, Token.Integer(1)] + ix + [Token.Integer(4), ParenEnd]
        == [ParenStart, Token.Integer(1), BracketStart, Token.Integer(2), Token.Integer(3), BracketEnd, Token.Integer(4), ParenEnd];
    ParseComplete([Expr.Block([Expr.Integer(1), inner, Expr.Integer(4)])]);
  }

  lemma ParseBooleansExample()
    ensures ParseTokens([Token.Call("true"), Token.Call("false")]) == Some([Expr.Boolean(true), Expr.Boolean(false)])
  {
    var t, f := Expr.Boolean(true), Expr.Boolean(false);
    SpellTwo(t, f);
    assert TokensOfAll([t, f]) == [Token.Call("true"), Token.Call("false")];
    ParseComplete([t, f]);
  }

  lemma ParseUnclosedExample()
    ensures ParseTokens([ParenStart]) == None
  {
    var unclosed := [ParenStart];
    assert unclosed[1..] == [];
    ParseBalanced(unclosed);
  }

  lemma ParseStrayCloserExample()
    ensures ParseTokens([ParenEnd]) == None
  {
    ParseBalanced([ParenEnd]);
  }

  lemma ParseMismatchExample()
    ensures ParseTokens([ParenStart, Token.Integer(1), Token.Integer(2), Token.Integer(3), BracketEnd]) == None
  {
    var mismatched := [ParenStart, Token.Integer(1), Token.Integer(2), Token.Integer(3), BracketEnd];
    assert !Matched(mismatched[4..], [Paren]);
    assert mismatched[3..][0].Integer? && mismatched[3..][1..] == mismatched[4..];
    assert !Matched(mismatched[3..], [Paren]);
    assert mismatched[2..][0].Integer? && mismatched[2..][1..] == mismatched[3..];
    assert !Matched(mismatched[2..], [Paren]);
    assert mismatched[1..][0].Integer? && mismatched[1..][1..] == mismatched[2..];
    assert !Matched(mismatched[1..], [Paren]);
    ParseBalanced(mismatched);
  }
}

/** A state-passing model of the parsers of src/ty.rs. Each operation takes the
    tokens the cursor has not yet produced and gives back its result together
    with the tokens still left afterwards. The cursor class in module Cursor
    runs the same operations in place and is proved equal to these. */
module Parse {
  import opened Tokens
  import opened Traits

  /** The outcome of one parser step and the tokens left after it. */
  datatype Parsed<+T> = Parsed(result: Result<T>, rest: seq<Token>)

  /** What `peek` sees. */
  function Head(s: seq<Token>): (t: Option<Token>)
    ensures t.Some? <==> s != []
    ensures t.Some? ==> t.value == s[0]
  {
    if s == [] then None else Some(s[0])
  }

  /** What is left once `next` has been called. */
  function Drop1(s: seq<Token>): (r: seq<Token>)
    ensures s == [] ==> r == []
    ensures s != [] ==> r == s[1..] && |r| == |s| - 1
  {
    if s == [] then [] else s[1..]
  }

  predicate IsPunct(t: Token, c: char) { t.Punct? && t.ch == c }

  /** `t` is what is left of `s` after some tokens were taken from its front. */
  predicate IsSuffix(t: seq<Token>, s: seq<Token>) {
    |t| <= |s| && t == s[|s| - |t|..]
  }

  /** What is left after taking from what is left is left of the whole. */
  lemma SuffixTrans(t: seq<Token>, u: seq<Token>, s: seq<Token>)
    requires IsSuffix(t, u) && IsSuffix(u, s)
    ensures IsSuffix(t, s)
  {
    assert s[|s| - |u|..][|u| - |t|..] == s[|s| - |t|..];
  }

  /** A sequence that starts with `a + b` starts with `a`. */
  lemma AppendPrefix<T>(v: seq<T>, a: seq<T>, b: seq<T>)
    requires |a| + |b| <= |v| && v[..|a| + |b|] == a + b
    ensures |a| <= |v| && v[..|a|] == a
  {
    assert v[..|a|] == v[..|a| + |b|][..|a|];
  }

  /** Dropping the first token leaves a suffix. */
  lemma DropSuffix(s: seq<Token>)
    ensures IsSuffix(Drop1(s), s)
  {
  }

  // ---------------------------------------------------------------------
  // Primitives: `as_group`, `as_ident`, `as_lit`, `as_punct`

  datatype Kind = GroupKind | IdentKind | LiteralKind | PunctKind

  function KindOf(t: Token): Kind {
    match t
    case Group(_, _, _) => GroupKind
    case Ident(_, _) => IdentKind
    case Punct(_, _, _) => PunctKind
    case Literal(_, _) => LiteralKind
  }

  function Expected(k: Kind): string {
    match k
    case GroupKind => "Expected group"
    case IdentKind => "Expected identifier"
    case LiteralKind => "Expected literal"
    case PunctKind => "Expected punctuation"
  }

  /** The four primitives: call `next` once, succeed with the token when it
      has kind `k`, and fail at its span (at the call site when the stream
      was exhausted) otherwise. The token is consumed either way. */
  function Take(s: seq<Token>, k: Kind): (p: Parsed<Token>)
    ensures s == [] ==> p.rest == []
    ensures s != [] ==> p.rest == s[1..]
    ensures p.result.Ok? <==> s != [] && KindOf(s[0]) == k
    ensures p.result.Ok? ==> p.result.value == s[0]
    ensures p.result.Err? ==>
      p.result.error == Error(Expected(k), if s == [] then CallSite else s[0].span)
  {
    var tree := Head(s);
    if tree.Some? && KindOf(tree.value) == k then Parsed(Ok(tree.value), Drop1(s))
    else Parsed(Err(Error(Expected(k), AsSpan(tree))), Drop1(s))
  }

  // ---------------------------------------------------------------------
  // Validators: `expect_group`, `expect_ident`, `expect_punct`

  /** The symbol an `expect_group` message names for each delimiter. */
  function DelimiterSymbol(d: Delimiter): string {
    match d
    case Brace => "{"
    case Bracket => "["
    case Invisible => "delimiter"
    case Parenthesis => "("
  }

  /** `expect_group`: the next token must be a group with delimiter `want`;
      the result is the group's inner token stream. */
  function ExpectGroup(s: seq<Token>, want: Delimiter): (p: Parsed<seq<Token>>)
    ensures p.rest == Drop1(s)
    ensures p.result.Ok? <==> s != [] && s[0].Group? && s[0].delimiter == want
    ensures p.result.Ok? ==> p.result.value == s[0].stream
    ensures (s == [] || !s[0].Group?) ==>
      p.result == Err(Error("Expected group", if s == [] then CallSite else s[0].span))
    ensures s != [] && s[0].Group? && s[0].delimiter != want ==>
      p.result == Err(Error("Expected `" + DelimiterSymbol(want) + "`", s[0].span))
  {
    var group := Take(s, GroupKind);
    match group.result
    case Err(e) => Parsed(Err(e), group.rest)
    case Ok(g) =>
      if g.delimiter == want then Parsed(Ok(g.stream), group.rest)
      else Parsed(Err(Error("Expected `" + DelimiterSymbol(want) + "`", g.span)), group.rest)
  }

  /** `expect_ident`: the next token must be the identifier `want`. */
  function ExpectIdent(s: seq<Token>, want: string): (p: Parsed<()>)
    ensures p.rest == Drop1(s)
    ensures p.result.Ok? <==> s != [] && s[0].Ident? && s[0].text == want
    ensures (s == [] || !s[0].Ident?) ==>
      p.result == Err(Error("Expected identifier", if s == [] then CallSite else s[0].span))
    ensures s != [] && s[0].Ident? && s[0].text != want ==>
      p.result == Err(Error("Expected `" + want + "`", s[0].span))
  {
    var ident := Take(s, IdentKind);
    match ident.result
    case Err(e) => Parsed(Err(e), ident.rest)
    case Ok(i) =>
      if i.text == want then Parsed(Ok(()), ident.rest)
      else Parsed(Err(Error("Expected `" + want + "`", i.span)), ident.rest)
  }

  /** `expect_punct`: the next token must be the punctuation `want`. */
  function ExpectPunct(s: seq<Token>, want: char): (p: Parsed<()>)
    ensures p.rest == Drop1(s)
    ensures p.result.Ok? <==> s != [] && IsPunct(s[0], want)
    ensures (s == [] || !s[0].Punct?) ==>
      p.result == Err(Error("Expected punctuation", if s == [] then CallSite else s[0].span))
    ensures s != [] && s[0].Punct? && s[0].ch != want ==>
      p.result == Err(Error("Expected `" + [want] + "`", s[0].span))
  {
    var punct := Take(s, PunctKind);
    match punct.result
    case Err(e) => Parsed(Err(e), punct.rest)
    case Ok(q) =>
      if q.ch == want then Parsed(Ok(()), punct.rest)
      else Parsed(Err(Error("Expected `" + [want] + "`", q.span)), punct.rest)
  }

  // ---------------------------------------------------------------------
  // `parse_visibility`

  predicate IsPub(t: Token) { t.Ident? && t.text == "pub" }

  predicate IsParenGroup(t: Token) { t.Group? && t.delimiter == Parenthesis }

  /** `parse_visibility`: skip `pub`, and a parenthesised group right after
      it. It never fails. */
  function Visibility(s: seq<Token>): (p: Parsed<()>)
    ensures p.result == Ok(())
    ensures (s == [] || !IsPub(s[0])) ==> p.rest == s
    ensures s != [] && IsPub(s[0]) && (|s| == 1 || !IsParenGroup(s[1])) ==> p.rest == s[1..]
    ensures |s| >= 2 && IsPub(s[0]) && IsParenGroup(s[1]) ==> p.rest == s[2..]
  {
    match Head(s)
    case Some(Ident(text, _)) =>
      if text != "pub" then Parsed(Ok(()), s)
      else
        var t := s[1..];
        (match Head(t)
         case Some(Group(Parenthesis, _, _)) => Parsed(Ok(()), t[1..])
         case _ => Parsed(Ok(()), t))
    case _ => Parsed(Ok(()), s)
  }

  // ---------------------------------------------------------------------
  // `parse_path`

  const EndOfStream := Error("Unexpected end of stream", CallSite)

  /** The end of `parse_path`: fail when no token set the span. */
  function FinishPath(path: string, span: Option<Span>): Result<(string, Span)> {
    if span.None? then Err(EndOfStream) else Ok((path, span.value))
  }

  /** `get_or_insert_with`: keep the first span seen. */
  function KeepFirst(span: Option<Span>, sp: Span): Option<Span> {
    if span.None? then Some(sp) else span
  }

  /** The loop of `parse_path`, with its three variables `nesting`, `path`
      and `span` as parameters. */
  function PathLoop(s: seq<Token>, nesting: int, path: string, span: Option<Span>)
    : Parsed<(string, Span)>
    decreases |s|
  {
    match Head(s)
    case None => Parsed(FinishPath(path, span), s)
    case Some(Punct(ch, spacing, sp)) =>
      if ch == ',' && nesting == 0 then Parsed(FinishPath(path, span), s)
      else
        var nesting' :=
          if ch == '<' then nesting + 1
          else if ch == '>' && spacing == Joint then nesting - 1
          else nesting;
        PathLoop(s[1..], nesting', path + [ch], KeepFirst(span, sp))
    case Some(Ident(text, sp)) =>
      PathLoop(s[1..], nesting, path + text, KeepFirst(span, sp))
    case Some(_) =>
      Parsed(Err(Error("Unexpected token", AsSpan(Head(s)))), Drop1(s))
  }

  /** `parse_path`. */
  function ParsePath(s: seq<Token>): Parsed<(string, Span)> {
    PathLoop(s, 0, "", None)
  }

  /** The loop of `parse_path` only takes tokens from the front; when it
      returns a path, it stopped at the end of the stream or before a comma,
      and the text gathered so far is the start of that path. */
  lemma {:induction false} PathLoopShape(s: seq<Token>, nesting: int, path: string, span: Option<Span>)
    ensures var r := PathLoop(s, nesting, path, span);
      IsSuffix(r.rest, s)
      && (r.result.Ok? ==> r.rest == [] || IsPunct(r.rest[0], ','))
      && (r.result.Ok? ==> |path| <= |r.result.value.0| && r.result.value.0[..|path|] == path)
    decreases |s|
  {
    DropSuffix(s);
    if s == [] {
      assert PathLoop(s, nesting, path, span) == Parsed(FinishPath(path, span), s);
    } else if s[0].Punct? && !(s[0].ch == ',' && nesting == 0) {
      var ch, sp := s[0].ch, s[0].span;
      var nesting' :=
        if ch == '<' then nesting + 1
        else if ch == '>' && s[0].spacing == Joint then nesting - 1
        else nesting;
      assert PathLoop(s, nesting, path, span) == PathLoop(s[1..], nesting', path + [ch], KeepFirst(span, sp));
      PathStepShape(s, s[1..], path, [ch], nesting', KeepFirst(span, sp));
    } else if s[0].Ident? {
      assert PathLoop(s, nesting, path, span) == PathLoop(s[1..], nesting, path + s[0].text, KeepFirst(span, s[0].span));
      PathStepShape(s, s[1..], path, s[0].text, nesting, KeepFirst(span, s[0].span));
    } else if s[0].Punct? {
      assert PathLoop(s, nesting, path, span) == Parsed(FinishPath(path, span), s);
    } else {
      assert PathLoop(s, nesting, path, span) == Parsed(Err(Error("Unexpected token", AsSpan(Head(s)))), Drop1(s));
    }
  }

  /** One pushing round of PathLoopShape: what holds after `t` holds after
      `s`, of which `t` is what is left. */
  lemma {:induction false} PathStepShape(s: seq<Token>, t: seq<Token>, path: string, piece: string,
                                         nesting: int, span: Option<Span>)
    requires IsSuffix(t, s) && |t| < |s|
    ensures var r := PathLoop(t, nesting, path + piece, span);
      IsSuffix(r.rest, s)
      && (r.result.Ok? ==> r.rest == [] || IsPunct(r.rest[0], ','))
      && (r.result.Ok? ==> |path| <= |r.result.value.0| && r.result.value.0[..|path|] == path)
    decreases |s|, 0
  {
    PathLoopShape(t, nesting, path + piece, span);
    var r := PathLoop(t, nesting, path + piece, span);
    SuffixTrans(r.rest, t, s);
    if r.result.Ok? {
      AppendPrefix(r.result.value.0, path, piece);
    }
  }

  /** How a token changes the angle-bracket depth: `<` opens, and `>` closes
      only when another punctuation character is glued to it. */
  function Delta(t: Token): int {
    if IsPunct(t, '<') then 1
    else if IsPunct(t, '>') && t.spacing == Joint then -1
    else 0
  }

  /** The depth after a sequence of tokens. */
  function Depth(p: seq<Token>): int {
    if p == [] then 0 else Depth(p[..|p| - 1]) + Delta(p[|p| - 1])
  }

  /** What a token adds to the path text. */
  function Piece(t: Token): string {
    if t.Punct? then [t.ch] else if t.Ident? then t.text else ""
  }

  /** The concatenated text of a sequence of tokens, in order. */
  function Render(p: seq<Token>): string {
    if p == [] then "" else Render(p[..|p| - 1]) + Piece(p[|p| - 1])
  }

  function FirstSpan(p: seq<Token>): Option<Span> {
    if p == [] then None else Some(p[0].span)
  }

  predicate PathToken(t: Token) { t.Punct? || t.Ident? }

  /** Token `i` is a comma outside every angle bracket. */
  predicate TopComma(s: seq<Token>, i: nat)
    requires i < |s|
  {
    IsPunct(s[i], ',') && Depth(s[..i]) == 0
  }

  /** The first `k` tokens are all path tokens and none is a top-level comma. */
  predicate Clear(s: seq<Token>, k: nat)
    requires k <= |s|
  {
    forall i :: 0 <= i < k ==> PathToken(s[i]) && !TopComma(s, i)
  }

  /** One round of the loop on a path token that does not end the path. */
  lemma PathStep(s: seq<Token>, nesting: int, path: string, span: Option<Span>)
    requires s != [] && PathToken(s[0]) && !(IsPunct(s[0], ',') && nesting == 0)
    ensures PathLoop(s, nesting, path, span)
      == PathLoop(s[1..], nesting + Delta(s[0]), path + Piece(s[0]), KeepFirst(span, s[0].span))
  {
    assert Head(s) == Some(s[0]);
  }

  /** Depth, text and first span of a prefix grow one token at a time. */
  lemma PrefixStep(s: seq<Token>, j: nat)
    requires j < |s|
    ensures Depth(s[..j + 1]) == Depth(s[..j]) + Delta(s[j])
    ensures Render(s[..j + 1]) == Render(s[..j]) + Piece(s[j])
    ensures FirstSpan(s[..j + 1]) == KeepFirst(FirstSpan(s[..j]), s[j].span)
  {
    assert s[..j + 1][..j] == s[..j] && s[..j + 1][j] == s[j];
  }

  /** The loop, started after the first `j` tokens of `s` have been through it,
      ends as the characterisation in ParsePathSpec says. */
  lemma {:induction false} PathFrom(s: seq<Token>, j: nat, k: nat)
    requires j <= k <= |s| && Clear(s, k)
    ensures var p := PathLoop(s[j..], Depth(s[..j]), Render(s[..j]), FirstSpan(s[..j]));
      (k == |s| ==> p == Parsed(FinishPath(Render(s), FirstSpan(s)), []))
      && (k < |s| && TopComma(s, k) ==>
            p == Parsed(FinishPath(Render(s[..k]), FirstSpan(s[..k])), s[k..]))
      && (k < |s| && !PathToken(s[k]) ==>
            p == Parsed(Err(Error("Unexpected token", s[k].span)), s[k + 1..]))
    decreases k - j
  {
    if j < k {
      assert PathToken(s[j]) && !TopComma(s, j);
      assert s[j..][0] == s[j] && s[j..][1..] == s[j + 1..];
      PathStep(s[j..], Depth(s[..j]), Render(s[..j]), FirstSpan(s[..j]));
      PrefixStep(s, j);
      assert PathLoop(s[j..], Depth(s[..j]), Render(s[..j]), FirstSpan(s[..j]))
        == PathLoop(s[j + 1..], Depth(s[..j + 1]), Render(s[..j + 1]), FirstSpan(s[..j + 1]));
      PathFrom(s, j + 1, k);
    } else if k == |s| {
      assert s[..k] == s;
    } else {
      assert s[k..][0] == s[k] && s[k..][1..] == s[k + 1..];
      assert Head(s[k..]) == Some(s[k]);
    }
  }

  /** What `parse_path` does, stated without its loop: let `k` be such that
      the first `k` tokens are identifiers or punctuation and none of them is
      a comma at depth 0. Then the parse
      - consumes the whole input when `k` is its length,
      - stops before token `k` when that is a comma at depth 0,
      - fails at token `k`, consuming it, when that is a group or a literal;
      on success the text is the concatenation of the consumed tokens and the
      span is that of the first one, and with nothing consumed it fails with
      the end-of-stream error. */
  lemma ParsePathSpec(s: seq<Token>, k: nat)
    requires k <= |s| && Clear(s, k)
    ensures k == |s| ==>
      ParsePath(s) == Parsed(if s == [] then Err(EndOfStream) else Ok((Render(s), s[0].span)), [])
    ensures k < |s| && TopComma(s, k) ==>
      ParsePath(s) == Parsed(if k == 0 then Err(EndOfStream) else Ok((Render(s[..k]), s[0].span)), s[k..])
    ensures k < |s| && !PathToken(s[k]) ==>
      ParsePath(s) == Parsed(Err(Error("Unexpected token", s[k].span)), s[k + 1..])
  {
    assert s[..0] == [] && s[0..] == s;
    PathFrom(s, 0, k);
  }

  /** Every input has a point where ParsePathSpec applies. */
  lemma StopPoint(s: seq<Token>) returns (k: nat)
    ensures k <= |s| && Clear(s, k)
    ensures k == |s| || TopComma(s, k) || !PathToken(s[k])
  {
    k := 0;
    while k < |s| && PathToken(s[k]) && !TopComma(s, k)
      invariant k <= |s| && Clear(s, k)
    {
      k := k + 1;
    }
  }

  // ---------------------------------------------------------------------
  // `parse_attributes`

  /** An attribute as a value: its name and the tokens after the name. */
  datatype AttrModel = AttrModel(name: Token, tree: seq<Token>)

  /** One round of the loop of `parse_attributes`, once `#` has been seen:
      consume it, then the bracket group, then the name inside the group. */
  function AttributeStep(s: seq<Token>): (p: Parsed<AttrModel>)
    ensures p.rest == Drop1(Drop1(s))
  {
    var group := ExpectGroup(Drop1(s), Bracket);
    if group.result.Err? then Parsed(Err(group.result.error), group.rest)
    else
      var ident := Take(group.result.value, IdentKind);
      if ident.result.Err? then Parsed(Err(ident.result.error), group.rest)
      else Parsed(Ok(AttrModel(ident.result.value, ident.rest)), group.rest)
  }

  /** The loop of `parse_attributes`, with the attributes gathered so far. */
  function AttributesLoop(s: seq<Token>, acc: seq<AttrModel>): Parsed<seq<AttrModel>>
    decreases |s|
  {
    match Head(s)
    case Some(Punct('#', _, _)) =>
      var attr := AttributeStep(s);
      if attr.result.Err? then Parsed(Err(attr.result.error), attr.rest)
      else AttributesLoop(attr.rest, acc + [attr.result.value])
    case _ => Parsed(Ok(acc), s)
  }

  /** `parse_attributes`. */
  function ParseAttributes(s: seq<Token>): Parsed<seq<AttrModel>> {
    AttributesLoop(s, [])
  }

  /** The loop of `parse_attributes` only takes tokens from the front; when
      it succeeds, the next token is not `#`, and the attributes gathered so
      far come first, in order. */
  lemma {:induction false} AttributesLoopShape(s: seq<Token>, acc: seq<AttrModel>)
    ensures var r := AttributesLoop(s, acc);
      IsSuffix(r.rest, s)
      && (r.result.Ok? ==> !(r.rest != [] && IsPunct(r.rest[0], '#')))
      && (r.result.Ok? ==> |acc| <= |r.result.value| && r.result.value[..|acc|] == acc)
    decreases |s|
  {
    if s != [] && IsPunct(s[0], '#') {
      var attr := AttributeStep(s);
      DropSuffix(s);
      DropSuffix(Drop1(s));
      SuffixTrans(attr.rest, Drop1(s), s);
      if attr.result.Ok? {
        var acc' := acc + [attr.result.value];
        assert AttributesLoop(s, acc) == AttributesLoop(attr.rest, acc');
        AttributesLoopShape(attr.rest, acc');
        var r := AttributesLoop(attr.rest, acc');
        SuffixTrans(r.rest, attr.rest, s);
        if r.result.Ok? {
          AppendPrefix(r.result.value, acc, [attr.result.value]);
        }
      } else {
        assert AttributesLoop(s, acc) == Parsed(Err(attr.result.error), attr.rest);
      }
    } else {
      assert AttributesLoop(s, acc) == Parsed(Ok(acc), s);
    }
  }

  /** The attribute a well-formed bracket group after `#` stands for. */
  function AttrOf(t: Token): Option<AttrModel> {
    if t.Group? && t.delimiter == Bracket && t.stream != [] && t.stream[0].Ident?
    then Some(AttrModel(t.stream[0], t.stream[1..]))
    else None
  }

  /** The error for a token after `#` that is not a well-formed attribute. */
  function AttrError(t: Token): Error {
    if !t.Group? then Error("Expected group", t.span)
    else if t.delimiter != Bracket then Error("Expected `[`", t.span)
    else if t.stream == [] then Error("Expected identifier", CallSite)
    else Error("Expected identifier", t.stream[0].span)
  }

  /** Tokens `2i` and `2i+1` are `#` and a bracket group standing for `a`. */
  predicate AttrPair(s: seq<Token>, i: nat, a: AttrModel) {
    2 * i + 1 < |s| && IsPunct(s[2 * i], '#') && AttrOf(s[2 * i + 1]) == Some(a)
  }

  /** One round of the loop of `parse_attributes` after `j` attributes. */
  lemma AttributesStep(s: seq<Token>, j: nat, acc: seq<AttrModel>)
    requires 2 * j <= |s|
    ensures !(2 * j < |s| && IsPunct(s[2 * j], '#')) ==>
      AttributesLoop(s[2 * j..], acc) == Parsed(Ok(acc), s[2 * j..])
    ensures 2 * j + 1 == |s| && IsPunct(s[2 * j], '#') ==>
      AttributesLoop(s[2 * j..], acc) == Parsed(Err(Error("Expected group", CallSite)), [])
    ensures 2 * j + 1 < |s| && IsPunct(s[2 * j], '#') && AttrOf(s[2 * j + 1]).None? ==>
      AttributesLoop(s[2 * j..], acc) == Parsed(Err(AttrError(s[2 * j + 1])), s[2 * j + 2..])
    ensures 2 * j + 1 < |s| && IsPunct(s[2 * j], '#') && AttrOf(s[2 * j + 1]).Some? ==>
      AttributesLoop(s[2 * j..], acc)
      == AttributesLoop(s[2 * (j + 1)..], acc + [AttrOf(s[2 * j + 1]).value])
  {
    var t := s[2 * j..];
    if 2 * j < |s| && IsPunct(s[2 * j], '#') {
      assert t[0] == s[2 * j] && t[1..] == s[2 * j + 1..];
      assert Head(t) == Some(s[2 * j]);
      if 2 * j + 1 == |s| {
        assert Drop1(t) == [];
      } else {
        var g := s[2 * j + 1];
        assert Drop1(t)[0] == g && Drop1(t)[1..] == s[2 * j + 2..];
        assert Drop1(Drop1(t)) == s[2 * j + 2..];
        if AttrOf(g).Some? {
          assert s[2 * (j + 1)..] == s[2 * j + 2..];
          assert AttributeStep(t) == Parsed(Ok(AttrOf(g).value), s[2 * j + 2..]);
        } else {
          assert AttributeStep(t) == Parsed(Err(AttrError(g)), s[2 * j + 2..]);
        }
      }
    } else if t != [] {
      assert Head(t) == Some(s[2 * j]);
    }
  }

  /** What the attribute loop returns when the first `n` pairs of `s` are
      well-formed attributes and pair `n` is not: success with exactly those
      attributes when token `2n` is absent or is not `#`, and otherwise the
      error for the token after that `#`. */
  ghost predicate AttributesOutcome(s: seq<Token>, n: nat, p: Parsed<seq<AttrModel>>)
    requires 2 * n <= |s|
  {
    (p.result.Ok? <==> 2 * n == |s| || !IsPunct(s[2 * n], '#'))
    && (p.result.Ok? ==>
          |p.result.value| == n && p.rest == s[2 * n..]
          && forall i :: 0 <= i < n ==> AttrPair(s, i, p.result.value[i]))
    && (p.result.Err? && 2 * n + 1 == |s| ==>
          p == Parsed(Err(Error("Expected group", CallSite)), []))
    && (p.result.Err? && 2 * n + 1 < |s| ==>
          AttrOf(s[2 * n + 1]).None? && p == Parsed(Err(AttrError(s[2 * n + 1])), s[2 * n + 2..]))
  }

  lemma {:induction false} AttributesFrom(s: seq<Token>, j: nat, acc: seq<AttrModel>) returns (n: nat)
    requires 2 * j <= |s| && |acc| == j
    requires forall i :: 0 <= i < j ==> AttrPair(s, i, acc[i])
    ensures j <= n && 2 * n <= |s|
    ensures forall i :: 0 <= i < n ==>
      2 * i + 1 < |s| && IsPunct(s[2 * i], '#') && AttrOf(s[2 * i + 1]).Some?
    ensures AttributesOutcome(s, n, AttributesLoop(s[2 * j..], acc))
    decreases |s| - 2 * j
  {
    forall i | 0 <= i < j ensures 2 * i + 1 < |s| && IsPunct(s[2 * i], '#') && AttrOf(s[2 * i + 1]).Some? {
      assert AttrPair(s, i, acc[i]);
    }
    if 2 * j + 1 < |s| && IsPunct(s[2 * j], '#') && AttrOf(s[2 * j + 1]).Some? {
      var a := AttrOf(s[2 * j + 1]).value;
      var acc' := acc + [a];
      forall i | 0 <= i < j + 1 ensures AttrPair(s, i, acc'[i]) {
        if i < j {
          assert acc'[i] == acc[i];
        }
      }
      AttributesStep(s, j, acc);
      n := AttributesFrom(s, j + 1, acc');
    } else {
      AttributesStop(s, j, acc);
      n := j;
    }
  }

  /** The loop ends after `j` attributes when pair `j` is not a well-formed
      attribute. */
  lemma AttributesStop(s: seq<Token>, j: nat, acc: seq<AttrModel>)
    requires 2 * j <= |s| && |acc| == j
    requires forall i :: 0 <= i < j ==> AttrPair(s, i, acc[i])
    requires !(2 * j + 1 < |s| && IsPunct(s[2 * j], '#') && AttrOf(s[2 * j + 1]).Some?)
    ensures AttributesOutcome(s, j, AttributesLoop(s[2 * j..], acc))
  {
    AttributesStep(s, j, acc);
  }

  /** What `parse_attributes` does, stated without its loop: with `n` the
      number of well-formed `#[name ...]` pairs at the front, it succeeds
      exactly when the token after them is not `#` (or there is none); then
      it consumes exactly those `2n` tokens and returns their attributes in
      order. Otherwise it fails on the malformed attribute after the `#`. */
  lemma ParseAttributesSpec(s: seq<Token>) returns (n: nat)
    ensures 2 * n <= |s|
    ensures forall i :: 0 <= i < n ==>
      2 * i + 1 < |s| && IsPunct(s[2 * i], '#') && AttrOf(s[2 * i + 1]).Some?
    ensures AttributesOutcome(s, n, ParseAttributes(s))
  {
    assert s[2 * 0..] == s;
    n := AttributesFrom(s, 0, []);
  }

  /** `a::b`: the segments and the separator are glued into one text, at the
      span of the first token. */
  lemma PathSegments(sp: seq<Span>)
    requires |sp| == 4
    ensures var s := [Ident("a", sp[0]), Punct(':', Joint, sp[1]), Punct(':', Alone, sp[2]), Ident("b", sp[3])];
      ParsePath(s) == Parsed(Ok(("a::b", sp[0])), [])
  {
    var s := [Ident("a", sp[0]), Punct(':', Joint, sp[1]), Punct(':', Alone, sp[2]), Ident("b", sp[3])];
    var first := Some(sp[0]);
    PathStep(s, 0, "", None);
    assert "" + Piece(s[0]) == "a";
    assert PathLoop(s, 0, "", None) == PathLoop(s[1..], 0, "a", first);
    assert s[1..][0] == s[1] && s[1..][1..] == s[2..];
    PathStep(s[1..], 0, "a", first);
    assert "a" + Piece(s[1]) == "a:";
    assert PathLoop(s[1..], 0, "a", first) == PathLoop(s[2..], 0, "a:", first);
    assert s[2..][0] == s[2] && s[2..][1..] == s[3..];
    PathStep(s[2..], 0, "a:", first);
    assert "a:" + Piece(s[2]) == "a::";
    assert PathLoop(s[2..], 0, "a:", first) == PathLoop(s[3..], 0, "a::", first);
    assert s[3..][0] == s[3] && s[3..][1..] == s[4..];
    PathStep(s[3..], 0, "a::", first);
    assert "a::" + Piece(s[3]) == "a::b";
    assert PathLoop(s[3..], 0, "a::", first) == PathLoop(s[4..], 0, "a::b", first);
    assert s[4..] == [];
  }

  /** `Vec<u8>, x`: the comma after the closing `>` ends the path and is
      left in the stream. */
  lemma PathStopsAtComma(sp: seq<Span>)
    requires |sp| == 6
    ensures var s := [Ident("Vec", sp[0]), Punct('<', Alone, sp[1]), Ident("u8", sp[2]), Punct('>', Joint, sp[3]), Punct(',', Alone, sp[4]), Ident("x", sp[5])];
      ParsePath(s) == Parsed(Ok(("Vec<u8>", sp[0])), s[4..])
  {
    var s := [Ident("Vec", sp[0]), Punct('<', Alone, sp[1]), Ident("u8", sp[2]), Punct('>', Joint, sp[3]), Punct(',', Alone, sp[4]), Ident("x", sp[5])];
    var first := Some(sp[0]);
    PathStep(s, 0, "", None);
    assert "" + Piece(s[0]) == "Vec";
    assert PathLoop(s, 0, "", None) == PathLoop(s[1..], 0, "Vec", first);
    assert s[1..][0] == s[1] && s[1..][1..] == s[2..];
    PathStep(s[1..], 0, "Vec", first);
    assert "Vec" + Piece(s[1]) == "Vec<";
    assert PathLoop(s[1..], 0, "Vec", first) == PathLoop(s[2..], 1, "Vec<", first);
    assert s[2..][0] == s[2] && s[2..][1..] == s[3..];
    PathStep(s[2..], 1, "Vec<", first);
    assert "Vec<" + Piece(s[2]) == "Vec<u8";
    assert PathLoop(s[2..], 1, "Vec<", first) == PathLoop(s[3..], 1, "Vec<u8", first);
    assert s[3..][0] == s[3] && s[3..][1..] == s[4..];
    PathStep(s[3..], 1, "Vec<u8", first);
    assert "Vec<u8" + Piece(s[3]) == "Vec<u8>";
    assert PathLoop(s[3..], 1, "Vec<u8", first) == PathLoop(s[4..], 0, "Vec<u8>", first);
    assert s[4..][0] == s[4];
  }

  /** The last rounds of the loop on `Map<K, V>, x`: the `>` glued to the
      comma closes the bracket, and the comma then ends the path. */
  lemma PathInnerCommaTail(sp: seq<Span>)
    requires |sp| == 8
    ensures var t := [Punct(',', Alone, sp[3]), Ident("V", sp[4]), Punct('>', Joint, sp[5]), Punct(',', Alone, sp[6]), Ident("x", sp[7])];
      PathLoop(t, 1, "Map<K", Some(sp[0])) == Parsed(Ok(("Map<K,V>", sp[0])), t[3..])
  {
    var t := [Punct(',', Alone, sp[3]), Ident("V", sp[4]), Punct('>', Joint, sp[5]), Punct(',', Alone, sp[6]), Ident("x", sp[7])];
    var first := Some(sp[0]);
    PathStep(t, 1, "Map<K", first);
    assert "Map<K" + Piece(t[0]) == "Map<K,";
    assert PathLoop(t, 1, "Map<K", first) == PathLoop(t[1..], 1, "Map<K,", first);
    assert t[1..][0] == t[1] && t[1..][1..] == t[2..];
    PathStep(t[1..], 1, "Map<K,", first);
    assert "Map<K," + Piece(t[1]) == "Map<K,V";
    assert PathLoop(t[1..], 1, "Map<K,", first) == PathLoop(t[2..], 1, "Map<K,V", first);
    assert t[2..][0] == t[2] && t[2..][1..] == t[3..];
    PathStep(t[2..], 1, "Map<K,V", first);
    assert "Map<K,V" + Piece(t[2]) == "Map<K,V>";
    assert PathLoop(t[2..], 1, "Map<K,V", first) == PathLoop(t[3..], 0, "Map<K,V>", first);
    assert t[3..][0] == t[3];
  }

  /** `Map<K, V>, x`: a comma inside angle brackets belongs to the path. */
  lemma PathInnerComma(sp: seq<Span>)
    requires |sp| == 8
    ensures var s := [Ident("Map", sp[0]), Punct('<', Alone, sp[1]), Ident("K", sp[2]), Punct(',', Alone, sp[3]), Ident("V", sp[4]), Punct('>', Joint, sp[5]), Punct(',', Alone, sp[6]), Ident("x", sp[7])];
      ParsePath(s) == Parsed(Ok(("Map<K,V>", sp[0])), s[6..])
  {
    var s := [Ident("Map", sp[0]), Punct('<', Alone, sp[1]), Ident("K", sp[2]), Punct(',', Alone, sp[3]), Ident("V", sp[4]), Punct('>', Joint, sp[5]), Punct(',', Alone, sp[6]), Ident("x", sp[7])];
    var first := Some(sp[0]);
    PathStep(s, 0, "", None);
    assert "" + Piece(s[0]) == "Map";
    assert PathLoop(s, 0, "", None) == PathLoop(s[1..], 0, "Map", first);
    assert s[1..][0] == s[1] && s[1..][1..] == s[2..];
    PathStep(s[1..], 0, "Map", first);
    assert "Map" + Piece(s[1]) == "Map<";
    assert PathLoop(s[1..], 0, "Map", first) == PathLoop(s[2..], 1, "Map<", first);
    assert s[2..][0] == s[2] && s[2..][1..] == s[3..];
    PathStep(s[2..], 1, "Map<", first);
    assert "Map<" + Piece(s[2]) == "Map<K";
    assert PathLoop(s[2..], 1, "Map<", first) == PathLoop(s[3..], 1, "Map<K", first);
    assert s[3..] == [Punct(',', Alone, sp[3]), Ident("V", sp[4]), Punct('>', Joint, sp[5]), Punct(',', Alone, sp[6]), Ident("x", sp[7])];
    assert s[3..][3..] == s[6..];
    PathInnerCommaTail(sp);
  }

  /** The last rounds of the loop on `Vec<u8> , x`: at depth one, the `>`
      with nothing glued to it leaves the depth at one. */
  lemma PathAloneCloseTail(sp: seq<Span>)
    requires |sp| == 6
    ensures var t := [Punct('>', Alone, sp[3]), Punct(',', Alone, sp[4]), Ident("x", sp[5])];
      PathLoop(t, 1, "Vec<u8", Some(sp[0])) == Parsed(Ok(("Vec<u8>,x", sp[0])), [])
  {
    var t := [Punct('>', Alone, sp[3]), Punct(',', Alone, sp[4]), Ident("x", sp[5])];
    var first := Some(sp[0]);
    PathStep(t, 1, "Vec<u8", first);
    assert "Vec<u8" + Piece(t[0]) == "Vec<u8>";
    assert PathLoop(t, 1, "Vec<u8", first) == PathLoop(t[1..], 1, "Vec<u8>", first);
    assert t[1..][0] == t[1] && t[1..][1..] == t[2..];
    PathStep(t[1..], 1, "Vec<u8>", first);
    assert "Vec<u8>" + Piece(t[1]) == "Vec<u8>,";
    assert PathLoop(t[1..], 1, "Vec<u8>", first) == PathLoop(t[2..], 1, "Vec<u8>,", first);
    assert t[2..][0] == t[2] && t[2..][1..] == t[3..];
    PathStep(t[2..], 1, "Vec<u8>,", first);
    assert "Vec<u8>," + Piece(t[2]) == "Vec<u8>,x";
    assert PathLoop(t[2..], 1, "Vec<u8>,", first) == PathLoop(t[3..], 1, "Vec<u8>,x", first);
    assert t[3..] == [];
  }

  /** `Vec<u8> , x`: a `>` with nothing glued to it does not close the
      bracket, so the comma after it is taken into the path. */
  lemma PathAloneClose(sp: seq<Span>)
    requires |sp| == 6
    ensures var s := [Ident("Vec", sp[0]), Punct('<', Alone, sp[1]), Ident("u8", sp[2]), Punct('>', Alone, sp[3]), Punct(',', Alone, sp[4]), Ident("x", sp[5])];
      ParsePath(s) == Parsed(Ok(("Vec<u8>,x", sp[0])), [])
  {
    var s := [Ident("Vec", sp[0]), Punct('<', Alone, sp[1]), Ident("u8", sp[2]), Punct('>', Alone, sp[3]), Punct(',', Alone, sp[4]), Ident("x", sp[5])];
    var first := Some(sp[0]);
    PathStep(s, 0, "", None);
    assert "" + Piece(s[0]) == "Vec";
    assert PathLoop(s, 0, "", None) == PathLoop(s[1..], 0, "Vec", first);
    assert s[1..][0] == s[1] && s[1..][1..] == s[2..];
    PathStep(s[1..], 0, "Vec", first);
    assert "Vec" + Piece(s[1]) == "Vec<";
    assert PathLoop(s[1..], 0, "Vec", first) == PathLoop(s[2..], 1, "Vec<", first);
    assert s[2..][0] == s[2] && s[2..][1..] == s[3..];
    PathStep(s[2..], 1, "Vec<", first);
    assert "Vec<" + Piece(s[2]) == "Vec<u8";
    assert PathLoop(s[2..], 1, "Vec<", first) == PathLoop(s[3..], 1, "Vec<u8", first);
    assert s[3..] == [Punct('>', Alone, sp[3]), Punct(',', Alone, sp[4]), Ident("x", sp[5])];
    PathAloneCloseTail(sp);
  }

  /** A literal in a path is an error at the literal, and consumes it. */
  lemma PathLiteral()
    ensures var s := [Ident("a", At(0)), Literal("1", At(1)), Ident("b", At(2))];
      ParsePath(s) == Parsed(Err(Error("Unexpected token", At(1))), [Ident("b", At(2))])
  {
    var s := [Ident("a", At(0)), Literal("1", At(1)), Ident("b", At(2))];
    assert s[1..][1..] == [Ident("b", At(2))];
  }
}

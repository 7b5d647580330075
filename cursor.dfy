/** The cursor of src/ty.rs: a peekable, consume-only iterator over a token
    stream, with the parsers of `TokenIterExt` as methods that advance it in
    place. Every method is proved to do exactly what the state-passing model
    in module Parse says, on the tokens it had not yet produced. */
module Cursor {
  import opened Tokens
  import opened Traits
  import Parse

  /** `Attribute`: the name of `#[name ...]` and a cursor over the tokens
      after the name. */
  datatype Attribute = Attribute(name: Token, tree: TokenIter)

  class TokenIter {
    /** The stream the cursor was made from. */
    const tokens: seq<Token>
    /** How many tokens `next` has produced so far. */
    var pos: nat

    ghost predicate Valid()
      reads this
    {
      pos <= |tokens|
    }

    /** The tokens not yet produced: what a clone of the cursor would yield. */
    function Rest(): seq<Token>
      reads this
      requires Valid()
    {
      tokens[pos..]
    }

    /** `into_token_iter`: a cursor at the start of `stream`. */
    constructor (stream: seq<Token>)
      ensures Valid() && tokens == stream && pos == 0 && Rest() == stream
    {
      tokens := stream;
      pos := 0;
    }

    /** `peek`: the next token, leaving the cursor where it is. */
    function Peek(): (t: Option<Token>)
      reads this
      requires Valid()
      ensures t == Parse.Head(Rest())
    {
      if pos < |tokens| then Some(tokens[pos]) else None
    }

    /** `next`: the next token, consumed. */
    method Next() returns (t: Option<Token>)
      requires Valid()
      modifies this
      ensures Valid() && t == Parse.Head(old(Rest())) && Rest() == Parse.Drop1(old(Rest()))
    {
      if pos < |tokens| {
        t := Some(tokens[pos]);
        pos := pos + 1;
      } else {
        t := None;
      }
    }

    /** `as_group`. */
    method AsGroup() returns (r: Result<Token>)
      requires Valid()
      modifies this
      ensures Valid() && Parse.Parsed(r, Rest()) == Parse.Take(old(Rest()), Parse.GroupKind)
    {
      var tree := Next();
      match tree {
        case Some(Group(_, _, _)) => r := Ok(tree.value);
        case _ => r := Err(Error("Expected group", AsSpan(tree)));
      }
    }

    /** `as_ident`. */
    method AsIdent() returns (r: Result<Token>)
      requires Valid()
      modifies this
      ensures Valid() && Parse.Parsed(r, Rest()) == Parse.Take(old(Rest()), Parse.IdentKind)
    {
      var tree := Next();
      match tree {
        case Some(Ident(_, _)) => r := Ok(tree.value);
        case _ => r := Err(Error("Expected identifier", AsSpan(tree)));
      }
    }

    /** `as_lit`. */
    method AsLit() returns (r: Result<Token>)
      requires Valid()
      modifies this
      ensures Valid() && Parse.Parsed(r, Rest()) == Parse.Take(old(Rest()), Parse.LiteralKind)
    {
      var tree := Next();
      match tree {
        case Some(Literal(_, _)) => r := Ok(tree.value);
        case _ => r := Err(Error("Expected literal", AsSpan(tree)));
      }
    }

    /** `as_punct`. */
    method AsPunct() returns (r: Result<Token>)
      requires Valid()
      modifies this
      ensures Valid() && Parse.Parsed(r, Rest()) == Parse.Take(old(Rest()), Parse.PunctKind)
    {
      var tree := Next();
      match tree {
        case Some(Punct(_, _, _)) => r := Ok(tree.value);
        case _ => r := Err(Error("Expected punctuation", AsSpan(tree)));
      }
    }

    /** `expect_group`: on success, a new cursor over the group's inner tokens. */
    method ExpectGroup(want: Delimiter) returns (r: Result<TokenIter>)
      requires Valid()
      modifies this
      ensures Valid()
      ensures var p := Parse.ExpectGroup(old(Rest()), want);
        Rest() == p.rest && r.Ok? == p.result.Ok?
        && (r.Ok? ==> fresh(r.value) && r.value.Valid() && r.value.Rest() == p.result.value)
        && (r.Err? ==> r.error == p.result.error)
    {
      var group := AsGroup();
      if group.Err? {
        return Err(group.error);
      }
      var g := group.value;
      if g.delimiter == want {
        var inner := new TokenIter(g.stream);
        r := Ok(inner);
      } else {
        r := Err(Error("Expected `" + Parse.DelimiterSymbol(want) + "`", g.span));
      }
    }

    /** `expect_ident`. */
    method ExpectIdent(want: string) returns (r: Result<()>)
      requires Valid()
      modifies this
      ensures Valid() && Parse.Parsed(r, Rest()) == Parse.ExpectIdent(old(Rest()), want)
    {
      var ident := AsIdent();
      if ident.Err? {
        return Err(ident.error);
      }
      if ident.value.text == want {
        r := Ok(());
      } else {
        r := Err(Error("Expected `" + want + "`", ident.value.span));
      }
    }

    /** `expect_punct`. */
    method ExpectPunct(want: char) returns (r: Result<()>)
      requires Valid()
      modifies this
      ensures Valid() && Parse.Parsed(r, Rest()) == Parse.ExpectPunct(old(Rest()), want)
    {
      var punct := AsPunct();
      if punct.Err? {
        return Err(punct.error);
      }
      if punct.value.ch == want {
        r := Ok(());
      } else {
        r := Err(Error("Expected `" + [want] + "`", punct.value.span));
      }
    }

    /** `parse_visibility`. */
    method ParseVisibility() returns (r: Result<()>)
      requires Valid()
      modifies this
      ensures Valid() && Parse.Parsed(r, Rest()) == Parse.Visibility(old(Rest()))
    {
      var first := Peek();
      if !(first.Some? && first.value.Ident? && first.value.text == "pub") {
        return Ok(());
      }
      var _ := Next();
      var second := Peek();
      if !(second.Some? && second.value.Group? && second.value.delimiter == Parenthesis) {
        return Ok(());
      }
      var _ := Next();
      r := Ok(());
    }

    /** `parse_path`. */
    method ParsePath() returns (r: Result<(string, Span)>)
      requires Valid()
      modifies this
      ensures Valid() && Parse.Parsed(r, Rest()) == Parse.ParsePath(old(Rest()))
    {
      var path: string := "";
      var span: Option<Span> := None;
      var nesting: int := 0;
      while Peek().Some?
        invariant Valid()
        invariant Parse.PathLoop(Rest(), nesting, path, span) == Parse.ParsePath(old(Rest()))
        decreases |tokens| - pos
      {
        var tree := Peek().value;
        match tree {
          case Punct(ch, spacing, sp) =>
            if ch == ',' && nesting == 0 {
              break;
            }
            if ch == '<' {
              nesting := nesting + 1;
            } else if ch == '>' && spacing == Joint {
              nesting := nesting - 1;
            }
            span := Parse.KeepFirst(span, sp);
            path := path + [ch];
          case Ident(text, sp) =>
            span := Parse.KeepFirst(span, sp);
            path := path + text;
          case _ =>
            var t := Next();
            return Err(Error("Unexpected token", AsSpan(t)));
        }
        var _ := Next();
      }
      r := Parse.FinishPath(path, span);
    }

    /** One round of the loop of `parse_attributes`, after `#` has been
        peeked: consume it, expect a bracket group, take the name from the
        group, and put the rest of the group in a new cursor of its own. The
        attribute is fit to be pushed onto the attributes gathered so far. */
    method NextAttribute(ghost attrs: seq<Attribute>, ghost model: seq<Parse.AttrModel>)
      returns (r: Result<Attribute>)
      requires Valid() && Collected(attrs, model, this)
      modifies this
      ensures Valid()
      ensures var p := Parse.AttributeStep(old(Rest()));
        Rest() == p.rest && r.Ok? == p.result.Ok?
        && (r.Err? ==> r.error == p.result.error)
        && (r.Ok? ==> Collected(attrs + [r.value], model + [p.result.value], this))
      ensures r.Ok? ==> fresh(r.value.tree)
    {
      var _ := Next();
      var group := ExpectGroup(Bracket);
      if group.Err? {
        return Err(group.error);
      }
      var g := group.value;
      var ident := g.AsIdent();
      if ident.Err? {
        return Err(ident.error);
      }
      var tree := new TokenIter(g.Rest());
      var attr := Attribute(ident.value, tree);
      CollectedSnoc(attrs, model, this, attr, Parse.AttrModel(ident.value, tree.tokens));
      r := Ok(attr);
    }

    /** `parse_attributes`: every `#[name ...]` at the front, in order, each
        with a new cursor of its own over the tokens after its name. */
    method ParseAttributes() returns (r: Result<seq<Attribute>>)
      requires Valid()
      modifies this
      ensures Valid()
      ensures var p := Parse.ParseAttributes(old(Rest()));
        Rest() == p.rest && r.Ok? == p.result.Ok?
        && (r.Err? ==> r.error == p.result.error)
        && (r.Ok? ==> Collected(r.value, p.result.value, this))
      ensures r.Ok? ==> fresh(Trees(r.value))
    {
      var attrs: seq<Attribute> := [];
      ghost var model: seq<Parse.AttrModel> := [];
      while true
        invariant Valid()
        invariant Parse.AttributesLoop(Rest(), model) == Parse.ParseAttributes(old(Rest()))
        invariant Collected(attrs, model, this)
        invariant fresh(Cursors(attrs))
        decreases |Rest()|
      {
        var next := Peek();
        if !(next.Some? && next.value.Punct? && next.value.ch == '#') {
          break;
        }
        ghost var s := Rest();
        var attr := NextAttribute(attrs, model);
        if attr.Err? {
          return Err(attr.error);
        }
        CursorsSnoc(attrs, attr.value);
        model := model + [Parse.AttributeStep(s).result.value];
        attrs := attrs + [attr.value];
      }
      CursorsCover(attrs);
      r := Ok(attrs);
    }
  }

  /** The cursors of a list of attributes, gathered one attribute at a time
      as the loop of `parse_attributes` pushes them. */
  ghost function Cursors(attrs: seq<Attribute>): set<TokenIter>
    decreases |attrs|
  {
    if attrs == [] then {} else Cursors(attrs[..|attrs| - 1]) + {attrs[|attrs| - 1].tree}
  }

  /** Pushing an attribute adds its cursor. */
  lemma CursorsSnoc(attrs: seq<Attribute>, a: Attribute)
    ensures Cursors(attrs + [a]) == Cursors(attrs) + {a.tree}
  {
    assert (attrs + [a])[..|attrs|] == attrs;
  }

  /** Every cursor of the list is among those gathered while pushing. */
  lemma {:induction false} CursorsCover(attrs: seq<Attribute>)
    ensures Trees(attrs) <= Cursors(attrs)
    decreases |attrs|
  {
    if attrs != [] {
      var init := attrs[..|attrs| - 1];
      CursorsCover(init);
      forall o | o in Trees(attrs) ensures o in Cursors(attrs) {
        var i :| 0 <= i < |attrs| && attrs[i].tree == o;
        if i < |init| {
          assert init[i] == attrs[i];
          assert o in Trees(init);
        }
      }
    }
  }

  /** The cursors of a list of attributes. */
  function Trees(attrs: seq<Attribute>): set<TokenIter> {
    set i | 0 <= i < |attrs| :: attrs[i].tree
  }

  /** `attrs` holds the attributes of `model`, in order, each cursor at the
      start of exactly the tokens of its model. */
  ghost predicate Models(attrs: seq<Attribute>, model: seq<Parse.AttrModel>)
    reads Trees(attrs)
  {
    |attrs| == |model|
    && forall i :: 0 <= i < |attrs| ==>
         attrs[i].name == model[i].name && attrs[i].tree.tokens == model[i].tree
         && attrs[i].tree.pos == 0
  }

  /** `attrs` models `model`, no two attributes share a cursor, and none of
      the cursors is `owner`. */
  ghost predicate Collected(attrs: seq<Attribute>, model: seq<Parse.AttrModel>, owner: TokenIter)
    reads Trees(attrs)
  {
    Models(attrs, model) && Distinct(attrs) && owner !in Trees(attrs)
  }

  /** Appending an attribute that models `m`, over a cursor of its own, keeps
      the collection well formed. */
  lemma CollectedSnoc(attrs: seq<Attribute>, model: seq<Parse.AttrModel>, owner: TokenIter,
                      a: Attribute, m: Parse.AttrModel)
    requires Collected(attrs, model, owner)
    requires a.name == m.name && a.tree.tokens == m.tree && a.tree.pos == 0
    requires a.tree != owner && a.tree !in Trees(attrs)
    ensures Collected(attrs + [a], model + [m], owner)
  {
    var attrs' := attrs + [a];
    assert forall i :: 0 <= i < |attrs| ==> attrs'[i] == attrs[i];
    assert attrs'[|attrs|] == a;
    forall i, j | 0 <= i < j < |attrs'| ensures attrs'[i].tree != attrs'[j].tree {
      if j == |attrs| {
        assert attrs[i].tree in Trees(attrs);
      }
    }
    forall i | 0 <= i < |attrs'| ensures attrs'[i].tree != owner {
      if i < |attrs| {
        assert attrs[i].tree in Trees(attrs);
      }
    }
  }

  /** No two attributes share a cursor. */
  predicate Distinct(attrs: seq<Attribute>) {
    forall i, j :: 0 <= i < j < |attrs| ==> attrs[i].tree != attrs[j].tree
  }
}

/** The diagnostic builder and the doc-comment filter of src/utils.rs. */
module Utils {
  import opened Tokens
  import opened Str
  import opened Traits
  import Parse
  import opened Cursor

  /** `Literal::string(msg)`: a string literal of `msg` at the call site.
      How the host escapes quotes and backslashes inside `msg` is not
      modelled: the text is `msg` between double quotes. */
  function StringLiteral(msg: string): Token {
    Literal("\"" + msg + "\"", CallSite)
  }

  /** `spanned_error`: the four tokens `compile_error ! ("msg") ;`, with the
      name and the group at `sp`. */
  function SpannedError(msg: string, sp: Span): (r: seq<Token>)
    ensures |r| == 4
    ensures r[0] == Ident("compile_error", sp)
    ensures r[1] == Punct('!', Alone, CallSite)
    ensures r[2] == Group(Parenthesis, [StringLiteral(msg)], sp)
    ensures r[3] == Punct(';', Alone, CallSite)
  {
    [ Ident("compile_error", sp), Punct('!', Alone, CallSite),
      Group(Parenthesis, [StringLiteral(msg)], sp), Punct(';', Alone, CallSite) ]
  }

  /** The token stream an error stands for where the source returns it. */
  function Diagnostic(e: Error): seq<Token> {
    SpannedError(e.message, e.span)
  }

  /** Different errors give different diagnostics: the message and the span
      can be read back from the tokens. */
  lemma DiagnosticInjective(e1: Error, e2: Error)
    requires Diagnostic(e1) == Diagnostic(e2)
    ensures e1 == e2
  {
    var t1 := Diagnostic(e1)[2].stream[0].text;
    var t2 := Diagnostic(e2)[2].stream[0].text;
    assert Interior(t1) == e1.message;
    assert Interior(t2) == e2.message;
  }

  /** Quoting adds no backslash, and unquoting gives the text back. */
  lemma Quoted(msg: string)
    requires '\\' !in msg
    ensures var text := "\"" + msg + "\"";
      StartsWith(text, '"') && EndsWith(text, '"') && Interior(text) == msg && '\\' !in text
  {
    var text := "\"" + msg + "\"";
    assert Interior(text) == msg;
    forall k | 0 <= k < |msg| ensures msg[k] != '\\' {
      assert msg[k] in msg;
    }
    assert text == ['"'] + msg + ['"'];
  }

  /** A double-quoted text with no backslash and no whitespace at either
      end decodes to the text between the quotes. */
  lemma AsStringQuoted(msg: string, sp: Span)
    requires '\\' !in msg && Trim(msg) == msg
    ensures AsString(Literal("\"" + msg + "\"", sp)) == Ok(msg)
  {
    Quoted(msg);
  }

  /** The message in a diagnostic reads back through `as_string` when it
      holds no backslash and no surrounding whitespace. */
  lemma DiagnosticMessage(msg: string, sp: Span)
    requires '\\' !in msg && Trim(msg) == msg
    ensures AsString(SpannedError(msg, sp)[2].stream[0]) == Ok(msg)
  {
    AsStringQuoted(msg, CallSite);
  }

  predicate IsDoc(name: Token) { name.Ident? && name.text == "doc" }

  /** The literal that `get_doc_comment` would decode is not a lone double
      quote, the one text on which `as_string` slices out of bounds (no lexer
      produces it). */
  predicate Decodable(name: Token, tree: seq<Token>) {
    IsDoc(name) && |tree| >= 2 && Parse.IsPunct(tree[0], '=') && tree[1].Literal?
    ==> tree[1].text != "\""
  }

  /** What one attribute with this name and these remaining tokens adds to
      the doc comment: it must be named `doc`, its first token must be `=`,
      and the token after it must be a literal that `as_string` accepts. */
  function DocLineOf(name: Token, tree: seq<Token>): (line: Option<string>)
    requires Decodable(name, tree)
    ensures line.Some? <==>
      IsDoc(name) && |tree| >= 2 && Parse.IsPunct(tree[0], '=') && tree[1].Literal?
      && AsString(tree[1]).Ok?
    ensures line.Some? ==> line.value == AsString(tree[1]).value
  {
    if !IsDoc(name) then None
    else if !(tree != [] && Parse.IsPunct(tree[0], '=')) then None
    else if !(|tree| >= 2 && tree[1].Literal?) then None
    else
      match AsString(tree[1])
      case Ok(v) => Some(v)
      case Err(_) => None
  }

  /** An attribute whose cursor is valid and whose doc literal can be decoded. */
  ghost predicate Readable(a: Attribute)
    reads a.tree
  {
    a.tree.Valid() && Decodable(a.name, a.tree.Rest())
  }

  /** The line an attribute adds, read through a clone of its cursor. */
  function DocLine(a: Attribute): Option<string>
    reads a.tree
    requires Readable(a)
  {
    DocLineOf(a.name, a.tree.Rest())
  }

  /** Every attribute of `attrs` is readable. */
  ghost predicate ValidAttributes(attrs: seq<Attribute>)
    reads Trees(attrs)
  {
    forall i :: 0 <= i < |attrs| ==> Readable(attrs[i])
  }

  /** The lines one attribute adds: its doc line, or none. */
  function Contribution(a: Attribute): (lines: seq<string>)
    reads a.tree
    requires Readable(a)
    ensures |lines| <= 1
  {
    match DocLine(a) case Some(l) => [l] case None => []
  }

  /** `get_doc_comment`: the doc lines of the attributes, in order. It only
      reads the attributes' cursors. */
  function GetDocComment(attrs: seq<Attribute>): (lines: seq<string>)
    reads Trees(attrs)
    requires ValidAttributes(attrs)
    ensures |lines| <= |attrs|
  {
    if attrs == [] then []
    else
      assert attrs[0] in attrs;
      Contribution(attrs[0]) + GetDocComment(attrs[1..])
  }

  /** Both parts of a list of readable attributes are readable. */
  lemma ValidSplit(a: seq<Attribute>, b: seq<Attribute>)
    requires ValidAttributes(a + b)
    ensures ValidAttributes(a) && ValidAttributes(b)
  {
    forall i | 0 <= i < |a| ensures Readable(a[i]) {
      assert (a + b)[i] == a[i];
    }
    forall i | 0 <= i < |b| ensures Readable(b[i]) {
      assert (a + b)[|a| + i] == b[i];
    }
  }

  /** The filter works attribute by attribute, so the lines of a list are
      the lines of its parts, in the same order. */
  lemma {:induction false} GetDocCommentAppend(a: seq<Attribute>, b: seq<Attribute>)
    requires ValidAttributes(a + b)
    ensures ValidAttributes(a) && ValidAttributes(b)
    ensures GetDocComment(a + b) == GetDocComment(a) + GetDocComment(b)
  {
    ValidSplit(a, b);
    if a == [] {
      assert a + b == b;
    } else {
      ConcatTail(a, b);
      GetDocCommentCons(a + b);
      GetDocCommentAppend(a[1..], b);
      AppendCons(a, b);
    }
  }

  /** The step of the induction: the head of `a` goes in front of the rest. */
  lemma AppendCons(a: seq<Attribute>, b: seq<Attribute>)
    requires a != [] && ValidAttributes(a + b) && ValidAttributes(a) && ValidAttributes(b)
    requires ValidAttributes(a[1..]) && ValidAttributes(a[1..] + b)
    requires GetDocComment(a[1..] + b) == GetDocComment(a[1..]) + GetDocComment(b)
    ensures GetDocComment(a + b) == GetDocComment(a) + GetDocComment(b)
  {
    ConcatTail(a, b);
    GetDocCommentCons(a + b);
    GetDocCommentCons(a);
    ConcatAssoc(Contribution(a[0]), GetDocComment(a[1..]), GetDocComment(b));
  }

  /** The head and the tail of a concatenation with a non-empty front. */
  lemma ConcatTail<T>(a: seq<T>, b: seq<T>)
    requires a != []
    ensures (a + b)[0] == a[0] && (a + b)[1..] == a[1..] + b
  {
  }

  lemma ConcatAssoc<T>(x: seq<T>, y: seq<T>, z: seq<T>)
    ensures x + (y + z) == (x + y) + z
  {
  }

  /** The lines of a non-empty list: those of its head, then those of its tail. */
  lemma GetDocCommentCons(attrs: seq<Attribute>)
    requires ValidAttributes(attrs) && attrs != []
    ensures Readable(attrs[0]) && ValidAttributes(attrs[1..])
    ensures GetDocComment(attrs) == Contribution(attrs[0]) + GetDocComment(attrs[1..])
  {
    assert forall i :: 0 <= i < |attrs[1..]| ==> attrs[1..][i] == attrs[i + 1];
  }

  /** An attribute not named `doc` adds nothing. */
  lemma {:induction false} GetDocCommentNoDoc(attrs: seq<Attribute>)
    requires ValidAttributes(attrs)
    requires forall i :: 0 <= i < |attrs| ==> !IsDoc(attrs[i].name)
    ensures GetDocComment(attrs) == []
  {
    if attrs != [] {
      assert !IsDoc(attrs[0].name);
      assert forall i :: 0 <= i < |attrs[1..]| ==> attrs[1..][i] == attrs[i + 1];
      GetDocCommentNoDoc(attrs[1..]);
    }
  }

  /** A plain message: no backslash, and no whitespace at either end. */
  predicate Plain(msg: string) { '\\' !in msg && Trim(msg) == msg }

  /** `hello` is plain. */
  lemma HelloPlain()
    ensures Plain("hello")
  {
    assert !IsWhitespace('h') && !IsWhitespace('o');
    assert TrimStart("hello") == "hello";
    assert TrimEnd("hello") == "hello";
  }

  /** Quoting `hello` after a space spells the literal `" hello"`. */
  lemma HelloQuoted()
    ensures "\" " + "hello" + "\"" == "\" hello\""
  {
    assert ("\" " + "hello" + "\"")[2..7] == "hello";
  }

  /** `doc = lit` gives the decoded literal. */
  lemma DocLineLiteral(name: Token, sp1: Span, lit: Token)
    requires IsDoc(name) && lit.Literal? && lit.text != "\"" && AsString(lit).Ok?
    ensures Decodable(name, [Punct('=', Alone, sp1), lit])
    ensures DocLineOf(name, [Punct('=', Alone, sp1), lit]) == Some(AsString(lit).value)
  {
  }

  /** `doc = "msg"` with a plain message gives the line `msg`. */
  lemma DocLineQuoted(name: Token, sp1: Span, msg: string, sp2: Span)
    requires IsDoc(name) && Plain(msg)
    ensures Decodable(name, [Punct('=', Alone, sp1), Literal("\"" + msg + "\"", sp2)])
    ensures DocLineOf(name, [Punct('=', Alone, sp1), Literal("\"" + msg + "\"", sp2)]) == Some(msg)
  {
    var lit := Literal("\"" + msg + "\"", sp2);
    assert |lit.text| != |"\""|;
    AsStringQuoted(msg, sp2);
    DocLineLiteral(name, sp1, lit);
  }

  /** One attribute adds its doc line if it has one, and nothing if not. */
  lemma GetDocCommentSingle(a: Attribute)
    requires Readable(a)
    ensures ValidAttributes([a])
    ensures DocLine(a).Some? ==> GetDocComment([a]) == [DocLine(a).value]
    ensures DocLine(a).None? ==> GetDocComment([a]) == []
  {
    assert [a][0] == a;
    assert [a][1..] == [];
  }

  /** `#[name tree...]` alone parses to the one attribute `name` over `tree`. */
  lemma OneAttribute(name: Token, tree: seq<Token>, sp0: Span, sp1: Span)
    requires name.Ident?
    ensures Parse.ParseAttributes([Punct('#', Alone, sp0), Group(Bracket, [name] + tree, sp1)])
      == Parse.Parsed(Ok([Parse.AttrModel(name, tree)]), [])
  {
    var s := [Punct('#', Alone, sp0), Group(Bracket, [name] + tree, sp1)];
    assert Parse.Drop1(Parse.Drop1(s)) == [];
    assert ([name] + tree)[1..] == tree;
    assert Parse.Drop1(s) == [s[1]];
    assert Parse.ExpectGroup(Parse.Drop1(s), Bracket) == Parse.Parsed(Ok([name] + tree), []);
    assert Parse.AttributeStep(s) == Parse.Parsed(Ok(Parse.AttrModel(name, tree)), []);
    var m := Parse.AttrModel(name, tree);
    assert Parse.AttributesLoop([], [m]) == Parse.Parsed(Ok([m]), []);
    assert [] + [m] == [m];
    assert Parse.Head(s) == Some(s[0]);
  }

  /** From tokens to doc line: `#[doc = "msg"]` parses to one attribute
      whose doc line is `msg`. */
  lemma DocFromTokens(msg: string, sp0: Span, sp1: Span, sp2: Span, sp3: Span, sp4: Span)
    requires Plain(msg)
    ensures var lit := Literal("\"" + msg + "\"", sp4);
      var name := Ident("doc", sp2);
      var s := [Punct('#', Alone, sp0), Group(Bracket, [name, Punct('=', Alone, sp3), lit], sp1)];
      Parse.ParseAttributes(s)
        == Parse.Parsed(Ok([Parse.AttrModel(name, [Punct('=', Alone, sp3), lit])]), [])
      && DocLineOf(name, [Punct('=', Alone, sp3), lit]) == Some(msg)
  {
    var lit := Literal("\"" + msg + "\"", sp4);
    var name := Ident("doc", sp2);
    var tree := [Punct('=', Alone, sp3), lit];
    OneAttribute(name, tree, sp0, sp1);
    assert [name] + tree == [name, Punct('=', Alone, sp3), lit];
    DocLineQuoted(name, sp3, msg, sp4);
  }

  /** The literal of a doc comment, a space and then a plain message
      between double quotes, decodes to the message: the space goes with
      the trim. */
  lemma AsStringLead(msg: string, sp: Span)
    requires Plain(msg)
    ensures AsString(Literal("\" " + msg + "\"", sp)) == Ok(msg)
  {
    var body := " " + msg;
    forall k | 0 <= k < |body| ensures body[k] != '\\' {
      if k > 0 {
        assert body[k] == msg[k - 1];
        assert msg[k - 1] in msg;
      }
    }
    Quoted(body);
    assert "\" " + msg + "\"" == "\"" + body + "\"";
    TrimLead(msg);
  }

  /** `/// msg` reaches the macro as `#[doc = " msg"]`, which parses to one
      attribute whose doc line is `msg`. */
  lemma DocComment(msg: string, sp0: Span, sp1: Span, sp2: Span, sp3: Span, sp4: Span)
    requires Plain(msg)
    ensures var lit := Literal("\" " + msg + "\"", sp4);
      var name := Ident("doc", sp2);
      var s := [Punct('#', Alone, sp0), Group(Bracket, [name, Punct('=', Alone, sp3), lit], sp1)];
      Parse.ParseAttributes(s)
        == Parse.Parsed(Ok([Parse.AttrModel(name, [Punct('=', Alone, sp3), lit])]), [])
      && DocLineOf(name, [Punct('=', Alone, sp3), lit]) == Some(msg)
  {
    var lit := Literal("\" " + msg + "\"", sp4);
    var name := Ident("doc", sp2);
    var tree := [Punct('=', Alone, sp3), lit];
    OneAttribute(name, tree, sp0, sp1);
    assert [name] + tree == [name, Punct('=', Alone, sp3), lit];
    assert |lit.text| != |"\""|;
    AsStringLead(msg, sp4);
    DocLineLiteral(name, sp3, lit);
  }

  /** A `/// hello` comment, which reaches the macro as `#[doc = " hello"]`,
      parses to one attribute whose doc line reads `hello`. */
  lemma DocHello(sp0: Span, sp1: Span, sp2: Span, sp3: Span, sp4: Span)
    ensures var lit := Literal("\" hello\"", sp4);
      var name := Ident("doc", sp2);
      var s := [Punct('#', Alone, sp0), Group(Bracket, [name, Punct('=', Alone, sp3), lit], sp1)];
      Parse.ParseAttributes(s)
        == Parse.Parsed(Ok([Parse.AttrModel(name, [Punct('=', Alone, sp3), lit])]), [])
      && DocLineOf(name, [Punct('=', Alone, sp3), lit]) == Some("hello")
  {
    HelloPlain();
    HelloQuoted();
    DocComment("hello", sp0, sp1, sp2, sp3, sp4);
  }
}

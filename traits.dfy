/** Extension operations on single tokens (src/traits.rs): the span of an
    optional token, and decoding of character and string literals from their
    raw text. */
module Traits {
  import opened Tokens
  import opened Str

  /** `as_span` on `Option<TokenTree>`: the token's own span, or the call site
      when there is no token. */
  function AsSpan(t: Option<Token>): (sp: Span)
    ensures t.None? ==> sp == CallSite
    ensures t.Some? ==> sp == t.value.span
  {
    match t
    case Some(Group(_, _, span)) => span
    case Some(Ident(_, span)) => span
    case Some(Punct(_, _, span)) => span
    case Some(Literal(_, span)) => span
    case None => CallSite
  }

  predicate StartsWith(s: string, c: char) { |s| > 0 && s[0] == c }

  predicate EndsWith(s: string, c: char) { |s| > 0 && s[|s| - 1] == c }

  /** `as_char`: the character right after the opening single quote, taken
      as it is (escapes are not decoded). */
  function AsChar(lit: Token): (r: Result<char>)
    requires lit.Literal?
    ensures r.Ok? <==> StartsWith(lit.text, '\'') && EndsWith(lit.text, '\'') && |lit.text| >= 2
    ensures r.Ok? ==> r.value == lit.text[1]
    ensures r.Err? ==> r.error == Error("Expected char literal", lit.span)
  {
    var s := lit.text;
    if !StartsWith(s, '\'') || !EndsWith(s, '\'') then
      Err(Error("Expected char literal", lit.span))
    else if |s| < 2 then
      Err(Error("Expected char literal", lit.span))
    else
      Ok(s[1])
  }

  /** The text between the first and the last character. */
  function Interior(s: string): (r: string)
    requires |s| >= 2
    ensures |r| == |s| - 2 && forall k :: 0 <= k < |r| ==> r[k] == s[k + 1]
  {
    s[1..|s| - 1]
  }

  /** The six escape substitutions of `as_string`, applied one after
      another over the whole text, in this order. */
  function Unescape(s: string): string {
    var s1 := Replace(s, '\\', '"', '"');
    var s2 := Replace(s1, '\\', 'n', '\n');
    var s3 := Replace(s2, '\\', 'r', '\r');
    var s4 := Replace(s3, '\\', 't', '\t');
    var s5 := Replace(s4, '\\', '\'', '\'');
    Replace(s5, '\\', '\\', '\\')
  }

  /** Decoding never lengthens the text. */
  lemma UnescapeShrinks(s: string)
    ensures |Unescape(s)| <= |s|
  {
  }

  /** Without a backslash there is nothing to decode. */
  lemma UnescapePlain(s: string)
    requires '\\' !in s
    ensures Unescape(s) == s
  {
    forall k | 0 <= k < |s| ensures s[k] != '\\' {
      assert s[k] in s;
    }
    ReplaceAbsent(s, '\\', '"', '"');
    ReplaceAbsent(s, '\\', 'n', '\n');
    ReplaceAbsent(s, '\\', 'r', '\r');
    ReplaceAbsent(s, '\\', 't', '\t');
    ReplaceAbsent(s, '\\', '\'', '\'');
    ReplaceAbsent(s, '\\', '\\', '\\');
  }

  /** Because `\n` is replaced before `\\`, an escaped backslash followed by
      `n` decodes to a backslash and a line feed. */
  lemma UnescapeOrder()
    ensures Unescape("\\\\n") == "\\\n"
  {
    assert Replace("\\\\n", '\\', '"', '"') == "\\\\n";
    assert Replace("\\\\n", '\\', 'n', '\n') == "\\\n";
  }

  /** The trimmed text between the quotes holds no backslash. */
  lemma TrimmedPlain(s: string)
    requires |s| >= 2 && '\\' !in s
    ensures '\\' !in Trim(Interior(s))
  {
    var t := Interior(s);
    var r := Trim(t);
    var i := |t| - |TrimStart(t)|;
    forall k | 0 <= k < |r| ensures r[k] != '\\' {
      assert r[k] == t[i + k] == s[i + k + 1];
      assert s[i + k + 1] in s;
    }
  }

  /** What decoding does to the trimmed text between the quotes. */
  lemma DecodedBody(s: string)
    requires |s| >= 2
    ensures |Unescape(Trim(Interior(s)))| <= |Trim(Interior(s))|
    ensures '\\' !in s ==> Unescape(Trim(Interior(s))) == Trim(Interior(s))
  {
    UnescapeShrinks(Trim(Interior(s)));
    if '\\' !in s {
      TrimmedPlain(s);
      UnescapePlain(Trim(Interior(s)));
    }
  }

  /** `as_string`: accept only text that starts and ends with a double quote,
      strip the quotes, trim the whitespace and decode the escapes. The one
      text this would slice out of bounds on, a lone `"`, is excluded. */
  function AsString(lit: Token): (r: Result<string>)
    requires lit.Literal? && lit.text != "\""
    ensures r.Err? <==> !(StartsWith(lit.text, '"') && EndsWith(lit.text, '"'))
    ensures r.Err? ==> r.error == Error("Expected string literal", lit.span)
    ensures r.Ok? ==> |lit.text| >= 2 && |r.value| <= |Trim(Interior(lit.text))|
    ensures r.Ok? && '\\' !in lit.text ==> r.value == Trim(Interior(lit.text))
  {
    var s := lit.text;
    if !StartsWith(s, '"') || !EndsWith(s, '"') then
      Err(Error("Expected string literal", lit.span))
    else
      var body := Trim(Interior(s));
      DecodedBody(s);
      Ok(Unescape(body))
  }

  /** A single-quoted literal of any character decodes to that character. */
  lemma AsCharQuoted(c: char, sp: Span)
    ensures AsChar(Literal(['\'', c, '\''], sp)) == Ok(c)
  {
  }

  /** The escape `\n` decodes to a real line feed. */
  lemma UnescapeNewline()
    ensures Unescape("a\\nb") == "a\nb"
  {
    assert Replace("a\\nb", '\\', '"', '"') == "a\\nb";
    assert Replace("a\\nb", '\\', 'n', '\n') == "a\nb";
    assert Replace("a\nb", '\\', 'r', '\r') == "a\nb";
    assert Replace("a\nb", '\\', 't', '\t') == "a\nb";
    assert Replace("a\nb", '\\', '\'', '\'') == "a\nb";
    assert Replace("a\nb", '\\', '\\', '\\') == "a\nb";
  }

  /** A text between double quotes with no whitespace at either end decodes
      to the text with its escapes decoded. */
  lemma AsStringWrapped(body: string, sp: Span)
    requires Trim(body) == body
    ensures AsString(Literal("\"" + body + "\"", sp)) == Ok(Unescape(body))
  {
    var text := "\"" + body + "\"";
    assert Interior(text) == body;
  }

  /** The literal `"a\nb"` decodes to `a`, a line feed, and `b`. */
  lemma AsStringNewline(sp: Span)
    ensures AsString(Literal("\"a\\nb\"", sp)) == Ok("a\nb")
  {
    var body := "a\\nb";
    assert body[0] == 'a' && body[|body| - 1] == 'b';
    TrimSolid(body);
    assert "\"" + body + "\"" == "\"a\\nb\"";
    AsStringWrapped(body, sp);
    UnescapeNewline();
  }
}

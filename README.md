# myn: a verified model of a procedural-macro token parser

`myn` is a small parser library for Rust procedural macros. A macro gets
its input as a stream of token trees: groups in `()`, `[]` or `{}`,
identifiers, punctuation characters and literals. It walks that stream with
a peekable, consume-only cursor. This project models the parsers the library
puts on that cursor, the literal decoders, and the two helpers that build
diagnostics and read doc comments. It then proves what each of them does.

The modules follow the library's layout:

- `Tokens` (tokens.dfy): the token model of the host compiler. It has an
  opaque `Span` with the call site as its one distinguished value, the four
  delimiters, `Alone`/`Joint` spacing and the `Token` tree. It also holds
  `Error(message, span)`, the arguments every failure hands to
  `spanned_error`.
- `Str` (strings.dfy): the two standard-library string operations that
  literal decoding uses. `trim` uses the Unicode White_Space set. `replace`
  finds its matches left to right, without overlap.
- `Traits` (traits.dfy): `as_span`, `as_char` and `as_string`.
- `Parse` (parse.dfy): a state-passing model of every parser of the cursor.
  Each parser maps the tokens not yet produced to a result and the tokens
  left afterwards. Two lemmas characterise `parse_path` and
  `parse_attributes` without their loops.
- `Cursor` (cursor.dfy): the cursor as the library has it. `TokenIter` is a
  class over a token sequence with a read position. The parsers are methods
  that advance the position in place. Each method, loops included, is proved
  to leave exactly the result and the remaining tokens that the function in
  `Parse` gives. `Attribute` pairs a name with a cursor object of its own,
  as the source struct does.
- `Utils` (utils.dfy): `spanned_error` and `get_doc_comment`.

## Model

| member | source | states |
|---|---|---|
| Str.TrimStart | src/traits.rs:176 | the result is a suffix of the input, everything dropped is whitespace, and the result does not start with whitespace |
| Str.TrimEnd | src/traits.rs:176 | the result is a prefix of the input, everything dropped is whitespace, and the result does not end with whitespace |
| Str.Trim | src/traits.rs:176 | the result is a contiguous slice of the input with only whitespace around it, and, when it is not empty, it begins and ends with a non-whitespace character |
| Str.TrimSolid | src/traits.rs:176 | a text that neither starts nor ends with whitespace is its own trim |
| Str.TrimLead | src/traits.rs:176 | one space in front of a text that is its own trim is trimmed away |
| Str.Replace | src/traits.rs:177-182 | replacing a two-character pattern by one character never lengthens the text |
| Str.ReplaceAbsent | src/traits.rs:177-182 | a text without the pattern is returned unchanged |
| Str.ReplaceShrinks | src/traits.rs:177-182 | the text gets shorter exactly when the pattern occurs, and keeps its length exactly when it does not |
| Traits.AsSpan | src/traits.rs:142-151 | a present token gives its own span, and an absent one gives the call site |
| Traits.AsChar | src/traits.rs:155-166 | succeeds exactly when the raw text starts and ends with `'` and has at least two characters; the result is the character right after the opening quote, with no escape decoding; a failure is "Expected char literal" at the literal's span |
| Traits.AsCharQuoted | src/traits.rs:155-166 | `'c'` decodes to `c` for every character `c` |
| Traits.Unescape | src/traits.rs:177-182 | the six `replace` calls, in source order; Traits.UnescapeShrinks, Traits.UnescapePlain and Traits.UnescapeOrder state what the chain does |
| Traits.UnescapeShrinks | src/traits.rs:177-182 | the six substitutions together never lengthen the text |
| Traits.UnescapePlain | src/traits.rs:177-182 | a text without a backslash is not changed by the substitutions |
| Traits.UnescapeOrder | src/traits.rs:178-182 | since `\n` is replaced before `\\`, the text `\\n` decodes to a backslash and a line feed |
| Traits.TrimmedPlain | src/traits.rs:175-176 | trimming the interior of a text without a backslash leaves none |
| Traits.DecodedBody | src/traits.rs:175-182 | decoding the trimmed interior never lengthens it, and leaves it unchanged when the literal has no backslash |
| Traits.AsString | src/traits.rs:168-183 | fails with "Expected string literal" at the literal's span exactly when the text does not both start and end with `"`, so prefixed forms are rejected; on success the value is never longer than the trimmed interior, and it equals the trimmed interior when the literal has no backslash |
| Traits.AsStringWrapped | src/traits.rs:168-183 | a text between double quotes with no whitespace at either end decodes to that text with its escapes decoded |
| Traits.UnescapeNewline | src/traits.rs:178 | the escape `\n` in `a\nb` becomes a real line feed |
| Traits.AsStringNewline | src/traits.rs:168-183 | the literal `"a\nb"` decodes to `a`, a line feed, `b` |
| Parse.Take | src/ty.rs:137-163 | each primitive consumes one token, or none when the stream is empty; it succeeds exactly when that token has its kind and returns it; otherwise it fails with "Expected group/identifier/literal/punctuation" at that token's span, or at the call site when the stream is empty |
| Parse.ExpectGroup | src/ty.rs:99-115 | consumes one token; succeeds exactly when it is a group with the wanted delimiter and then yields exactly the group's inner tokens; a non-group gives the primitive's error; a wrong delimiter gives "Expected `[`", "Expected `{`", "Expected `(`" or "Expected `delimiter`" at the group's span |
| Parse.ExpectIdent | src/ty.rs:117-125 | consumes one token; succeeds exactly when it is an identifier with the wanted text; a wrong kind gives the primitive's error, a wrong text "Expected `text`" at its span |
| Parse.ExpectPunct | src/ty.rs:127-135 | consumes one token; succeeds exactly when it is the wanted punctuation character; a wrong kind gives the primitive's error, a wrong character "Expected `c`" at its span |
| Parse.Visibility | src/ty.rs:46-60 | never fails; consumes nothing unless the first token is the identifier `pub`, one token when `pub` is not followed by a parenthesis group, and two when it is |
| Parse.AttributeStep | src/ty.rs:30-40 | one round of the attribute loop consumes exactly the `#` and the token after it |
| Parse.PathLoop | src/ty.rs:67-94 | the `while let` loop of `parse_path`, with `nesting`, `path` and `span` as parameters; Parse.PathLoopShape, Parse.PathFrom and Parse.ParsePathSpec (with Parse.StopPoint) state what it computes |
| Parse.ParsePath | src/ty.rs:62-97 | `parse_path`: the loop started with depth 0, no text and no span; Parse.ParsePathSpec and Parse.StopPoint characterise it without the loop |
| Parse.PathLoopShape | src/ty.rs:67-96 | the loop only takes tokens from the front; when it returns a path, it stopped at the end of the stream or before a comma, and the text gathered before any round is the start of the returned text |
| Parse.PathFrom | src/ty.rs:62-97 | the loop from any point inside a run of path tokens ends the same way as from the start: the generalised induction step of ParsePathSpec |
| Parse.ParsePathSpec | src/ty.rs:62-97 | over a run of identifiers and punctuation with no comma at depth 0: the whole input is consumed when the run reaches the end; the parse stops just before a comma at depth 0 without consuming it; a group or literal fails with "Unexpected token" at its span and is consumed; on success the text is the consumed tokens' text in order and the span is the first token's; when nothing was consumed the result is "Unexpected end of stream" at the call site; the depth rises on `<` and falls only on a `>` with `Joint` spacing |
| Parse.StopPoint | src/ty.rs:67-90 | every input has a point where one of the three cases of ParsePathSpec applies, so the characterisation covers all inputs |
| Parse.PathSegments | src/ty.rs:62-97 | `a::b` parses to the text `a::b` at the span of `a`, whatever the spans are, consuming everything |
| Parse.PathStopsAtComma | src/ty.rs:62-97 | `Vec<u8>, x` stops before the comma and leaves `, x` in the stream |
| Parse.PathInnerCommaTail | src/ty.rs:69-82 | in `Map<K, V>, x` at depth one, the comma joins the text, the `>` glued to the next comma closes the bracket, and that comma then ends the parse |
| Parse.PathInnerComma | src/ty.rs:69-82 | in `Map<K, V>, x` the first comma is inside angle brackets and joins the text `Map<K,V>`, and the second one, at depth 0, ends the parse |
| Parse.PathAloneCloseTail | src/ty.rs:74-77 | at depth one, a `>` with `Alone` spacing does not lower the depth, so a following comma is taken into the text |
| Parse.PathAloneClose | src/ty.rs:69-82 | `Vec<u8> , x` with a free-standing `>` parses as the single path `Vec<u8>,x` |
| Parse.PathLiteral | src/ty.rs:87 | a literal inside a path fails with "Unexpected token" at the literal, which is consumed |
| Parse.AttributesLoop | src/ty.rs:28-41 | the loop of `parse_attributes`, with the attributes gathered so far as a parameter; Parse.AttributesLoopShape, Parse.AttributesFrom and Parse.ParseAttributesSpec state what it computes |
| Parse.ParseAttributes | src/ty.rs:25-44 | `parse_attributes`: the loop started with no attributes; Parse.ParseAttributesSpec characterises it without the loop |
| Parse.AttributesLoopShape | src/ty.rs:28-43 | the loop only takes tokens from the front; on success the next token is not `#`, and the attributes gathered before any round come first, in order |
| Parse.AttributesStep | src/ty.rs:28-41 | one round of the attribute loop: it stops at a token that is not `#`; after a final `#` it fails with "Expected group" at the call site; after a `#` whose next token is not a bracket group starting with an identifier it fails there, consuming both; otherwise it records that attribute and carries on after the group |
| Parse.AttributesFrom | src/ty.rs:25-44 | the loop from any number of well-formed attributes ends as ParseAttributesSpec says |
| Parse.AttributesStop | src/ty.rs:28-41 | once pair `j` is not a well-formed attribute, the loop ends with the outcome ParseAttributesSpec states for `j` attributes |
| Parse.ParseAttributesSpec | src/ty.rs:25-44 | with `n` the number of well-formed `#[name ...]` pairs at the front: it succeeds exactly when the next token is absent or not `#`; it then consumes exactly those `2n` tokens and returns, in source order, one attribute per pair, named by the group's first identifier and holding the rest of the group; otherwise it fails with the error of the malformed pair ("Expected group", "Expected `[`" or "Expected identifier") |
| Cursor.Attribute | src/ty.rs:14-22 | the `Attribute` struct: a name and a cursor object; Cursor.Models and Cursor.Collected, in the contracts of Cursor.TokenIter.NextAttribute and Cursor.TokenIter.ParseAttributes, tie each one to its value model Parse.AttrModel |
| Cursor.TokenIter.constructor | src/traits.rs:137-139 | `into_token_iter` gives a cursor at the start that will produce exactly the stream's tokens, in order |
| Cursor.TokenIter.Peek | src/ty.rs:11 | looks at the next token without consuming it |
| Cursor.TokenIter.Next | src/ty.rs:11 | produces the next token and advances by one, or by none at the end |
| Cursor.TokenIter.AsGroup | src/ty.rs:137-142 | in place, exactly what Parse.Take does for groups |
| Cursor.TokenIter.AsIdent | src/ty.rs:144-149 | in place, exactly what Parse.Take does for identifiers |
| Cursor.TokenIter.AsLit | src/ty.rs:151-156 | in place, exactly what Parse.Take does for literals |
| Cursor.TokenIter.AsPunct | src/ty.rs:158-163 | in place, exactly what Parse.Take does for punctuation |
| Cursor.TokenIter.ExpectGroup | src/ty.rs:99-115 | in place, Parse.ExpectGroup; on success the result is a new cursor over exactly the group's inner tokens |
| Cursor.TokenIter.ExpectIdent | src/ty.rs:117-125 | in place, exactly Parse.ExpectIdent |
| Cursor.TokenIter.ExpectPunct | src/ty.rs:127-135 | in place, exactly Parse.ExpectPunct |
| Cursor.TokenIter.ParseVisibility | src/ty.rs:46-60 | in place, exactly Parse.Visibility |
| Cursor.TokenIter.ParsePath | src/ty.rs:62-97 | the loop with its `nesting`, `path` and `span` variables leaves exactly the result and the remaining tokens of Parse.ParsePath |
| Cursor.TokenIter.NextAttribute | src/ty.rs:30-40 | one round of the loop, after `#` is peeked: the result and the remaining tokens of Parse.AttributeStep, including its errors; on success the attribute has the model's name and a newly allocated cursor at the start of the rest of the group, which no attribute gathered so far and not the parser itself holds |
| Cursor.TokenIter.ParseAttributes | src/ty.rs:25-44 | the loop leaves the result and the remaining tokens of Parse.ParseAttributes; on success the attributes carry the model's names in order, each with a cursor at its start over exactly the model's tokens; every cursor is newly allocated, no two attributes share one, and none is the parser's own cursor |
| Cursor.CollectedSnoc | src/ty.rs:37-40 | pushing an attribute that matches its model, over a cursor not yet used, keeps the list matched to the model with distinct cursors |
| Utils.StringLiteral | src/utils.rs:11 | `Literal::string` at the call site; Utils.Quoted and Utils.DiagnosticMessage state that its text reads back as the message |
| Utils.SpannedError | src/utils.rs:8-21 | exactly four tokens: the identifier `compile_error` at the span given, `!` with `Alone` spacing, a parenthesis group at the span given holding just the string literal of the message, and `;` with `Alone` spacing |
| Utils.DiagnosticInjective | src/utils.rs:8-21 | different errors give different diagnostics: the message and the span can be read back from the four tokens |
| Utils.Quoted | src/utils.rs:11 | quoting a message adds no backslash, and unquoting gives it back |
| Utils.AsStringQuoted | src/traits.rs:168-183 | a double-quoted message with no backslash and no outer whitespace decodes to itself |
| Utils.AsStringLead | src/traits.rs:168-183 | the literal of a doc comment, `" msg"` with a plain message, decodes to `msg`: the trim removes the space |
| Utils.DiagnosticMessage | src/utils.rs:9-13 | the literal inside a diagnostic reads back through `as_string` as the message, for such messages |
| Utils.DocLine | src/utils.rs:29-40 | the line one attribute adds, read from what is left on its cursor without consuming it (the source reads a clone); Utils.DocLineOf states when there is a line and what it is |
| Utils.DocLineOf | src/utils.rs:29-40 | an attribute gives a line exactly when it is named `doc`, its first remaining token is `=` and the next is a literal that `as_string` accepts, and the line is that decoded literal; every other attribute is skipped without an error |
| Utils.Contribution | src/utils.rs:28-41 | each attribute adds at most one line |
| Utils.GetDocComment | src/utils.rs:25-43 | the output is never longer than the attribute list; the function only reads the attributes' cursors and changes nothing |
| Utils.GetDocCommentAppend | src/utils.rs:26-42 | the lines of a concatenation are the lines of its parts in the same order, so the filter keeps the attributes' order |
| Utils.GetDocCommentNoDoc | src/utils.rs:29-40 | attributes not named `doc` contribute nothing |
| Utils.GetDocCommentSingle | src/utils.rs:26-42 | a single attribute contributes its doc line when it has one, and nothing otherwise |
| Utils.DocLineLiteral | src/utils.rs:32-37 | `doc = lit` gives the decoded literal as its line |
| Utils.DocLineQuoted | src/utils.rs:32-37 | `doc = "msg"` with a plain message gives exactly `msg`, for instance `hello` |
| Utils.OneAttribute | src/ty.rs:25-44 | `#[name tree...]` alone parses to one attribute named `name` over `tree`, consuming everything |
| Utils.DocFromTokens | src/utils.rs:25-43 | from tokens to doc line: `#[doc = "msg"]` parses to one attribute named `doc` over `= "msg"`, and its doc line is `msg` |
| Utils.DocComment | src/utils.rs:25-43 | a `/// msg` comment, which reaches the macro as `#[doc = " msg"]`, parses to one attribute named `doc` over `= " msg"`, and its doc line is `msg` without the space |
| Utils.DocHello | src/utils.rs:25-43 | a `/// hello` comment, `#[doc = " hello"]`, parses to one attribute whose doc line reads `hello` |

## Left out

- Span internals are not modelled: a span is an opaque value whose only distinguished value is the call site.
- StringLiteral: `Literal::string` escapes quotes, backslashes and control characters in the message. The model writes the message between double quotes and does not escape it.
- A literal's printed form is its raw `text` field, which is what `format!("{self}")` yields.
- Traits.AsString: it requires that the text is not a lone `"`. That is the one text on which the source slices out of bounds and panics. No lexer produces such a literal.
- Utils.GetDocComment: it requires that in a `doc` attribute whose remaining tokens start with `=`, the literal after the `=` is not a lone `"`, for the same reason.
- `try_lit` (src/utils.rs:37) is not among the files of this model. Utils.DocLineOf models it as "the next token, if it is a literal, else an error". It is called on a throwaway clone and its error is thrown away, so consuming or peeking makes no difference.
- Cursor.TokenIter.ParsePath: `nesting` is an unbounded integer. The source's counter is an `i32`. It would overflow upward only after 2^31 unmatched `<` tokens, and downward only after 2^31 + 1 unmatched `>` tokens with `Joint` spacing (src/ty.rs:77 decrements it too).
- Errors stay abstract as `Error(message, span)`, the arguments the source passes to `spanned_error`. Utils.Diagnostic gives the token stream that stands for one.
- The `Debug` implementation of `Attribute` (src/ty.rs:166-173) only formats, so it is not modelled.
- src/lib.rs holds crate documentation and module declarations only, so it is not modelled.
- The modelled files define no non-consuming `try_*` primitive, and the model has none either. The one call to such a primitive, `try_lit` at src/utils.rs:37, is handled as the `try_lit` line above describes.
- `parse_path` does not parse tuples or arrays: any group inside a path is an "Unexpected token" error.
- `;` does not end a path; only a comma at depth 0 does.
- The whitespace that `trim` removes is modelled with the full Unicode White_Space set that `char::is_whitespace` tests, not an ASCII subset.

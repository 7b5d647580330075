/** The host compiler's token model, as the parser sees it: spans, delimiters,
    spacing, token trees, and the error value every fallible operation returns. */
module Tokens {

  /** A source position. Its inner structure is the host's business; the only
      distinguished value is the position of the macro invocation itself. */
  datatype Span = CallSite | At(id: nat)

  /** The four group delimiters; `Invisible` is the host's "no delimiter" kind. */
  datatype Delimiter = Parenthesis | Brace | Bracket | Invisible

  /** Whether a punctuation character is immediately followed by another one. */
  datatype Spacing = Alone | Joint

  /** One token tree. `text` is the token's printed form: the identifier as
      written, or the literal's raw source text including quotes and prefixes. */
  datatype Token =
    | Group(delimiter: Delimiter, stream: seq<Token>, span: Span)
    | Ident(text: string, span: Span)
    | Punct(ch: char, spacing: Spacing, span: Span)
    | Literal(text: string, span: Span)

  datatype Option<+T> = None | Some(value: T)

  /** A parse failure: the message and the span that the diagnostic is raised at. */
  datatype Error = Error(message: string, span: Span)

  datatype Result<+T> = Ok(value: T) | Err(error: Error)
}

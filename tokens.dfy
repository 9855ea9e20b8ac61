/** The token type (src/lexer/token.rs).
    The seven variants are those of the source. The identifier's payload is a
    type parameter: the lexer produces `Token<InternedString>`, while the
    reference scanner in LexerSpec produces `Token<string>`, and
    `Lexing.Erase` maps the former to the latter. */
module Tokens {

  datatype Token<Text> =
    | LParen
    | RParen
    | Colon
    | ThinArrow
    | ThickArrow
    | Assign
    | Identifier(text: Text)
}

/** The lexer's error type (src/lexer/error.rs): a single variant. */
module Errors {

  /** Raised when a scanning step needs a character and the input is exhausted. */
  datatype Error = UnexpectedEOF
}

/**
  The two error kinds of the library (s-html-parser/src/error.rs), without their
  `Display` formatting.
 */
module Errors {
  /** A character that is not one of the five punctuation marks. It never leaves the tokenizer. */
  datatype TokenError = NonCharToken(c: char)

  /** `Unexpected` marks a malformed tag; `Useless` is declared but never produced. */
  datatype ParseError = Unexpected | Useless
}

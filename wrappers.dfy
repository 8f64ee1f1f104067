/** Rust's `Result`, as the tokenizer's character classification returns it. */
module Wrappers {
  datatype Result<+T, +E> = Ok(value: T) | Err(error: E)
}

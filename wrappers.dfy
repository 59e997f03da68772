/** Option and Result, as the Rust sources use them. */
module Wrappers {

  datatype Option<+T> = None | Some(value: T)

  /** `Result<T, Box<dyn Error>>`: the error is only ever reported, so it is kept as a message. */
  datatype Result<+T> = Ok(value: T) | Err(message: string)
}

// The types shared by the whole model.
module Wrappers {

  datatype Option<+T> = None | Some(value: T)

  datatype Result<+T, +E> = Ok(value: T) | Err(error: E)

  // What a decoder of binary parameters does: a text, no text, or an abort of the program.
  datatype Decoded = Literal(text: string) | Nothing | Abort
}

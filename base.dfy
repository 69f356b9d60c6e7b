/** Small value types shared by the rest of the model. */
module Base {

  datatype Option<T> = None | Some(value: T)

  /** The outcome of an operation that the C++ code ends with a thrown exception. */
  datatype Result<T> = Ok(value: T) | Err(message: string)

  /** One `char` of a file's content, read as an unsigned byte. */
  newtype byte = b: int | 0 <= b < 256

  type Bytes = seq<byte>
}

/** Optional values, and results of operations that may fail, with the error codes of the program. */
module Results {
  datatype ErrorCode =
    | InvalidDimension
    | InvalidVectorId
    | InvalidState
    | InvalidData
    | VectorNotFound
    | IndexFull
    | IndexCorrupted
    | IoError
    | InvalidInput

  datatype Option<T> = None | Some(value: T)

  datatype Result<T> = Ok(value: T) | Err(error: ErrorCode)

  /** The result of an operation that returns nothing. */
  type Status = Result<()>
}

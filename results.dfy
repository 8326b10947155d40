/** Optional values (the source's nullable references) and results with an
    error branch (the source's exceptions). */
module Results {

  /** `None` stands for the C# `null` reference. */
  datatype Option<+T> = None | Some(value: T)

  /** `Err` stands for a thrown exception; the error value names it. */
  datatype Result<+T, +E> = Ok(value: T) | Err(error: E)
}

/** What several of the models share. */
module Base {

  datatype Option<+T> = None | Some(value: T)

  datatype Result<+T, +E> = Ok(value: T) | Err(error: E)

  /** Times are counted in nanoseconds. */
  const SECOND: int := 1_000_000_000

  function Min(a: int, b: int): int { if a < b then a else b }
}

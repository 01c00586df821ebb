/** Errors the statistics pipeline can raise, and a result type that carries them. */
module Results {

  /** The exceptions the core raises.
      DivisionByZero: a record whose sequence line is empty (read_length == 0).
      EmptyColumn: min() of an empty column in readstat_calculator. */
  datatype Error = DivisionByZero | EmptyColumn

  datatype Result<+T> = Ok(value: T) | Err(error: Error)
}

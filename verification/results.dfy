/**
  Rust's two-variant success/failure type `Result`, with the one standard
  combinator the extension methods are written with.
 */
module Results {

  /** Either a success value or an error. */
  datatype Result<+T, +E> = Ok(value: T) | Err(error: E)

  /** Runs `f` on the error of a failure; a success is handed back as it is. */
  function MapErr<T, E, F>(r: Result<T, E>, f: E -> F): Result<T, F>
  {
    match r
    case Ok(v) => Ok(v)
    case Err(e) => Err(f(e))
  }
}

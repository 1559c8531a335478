/** Option and Result values, standing for a missing answer and for an exception. */
module Results {
  datatype Option<+T> = None | Some(value: T) {

    /** The value, or a default where there is none. */
    function GetOr(default: T): T {
      match this
      case Some(v) => v
      case None => default
    }
  }

  datatype Result<+T, +E> = Success(value: T) | Failure(error: E)
}

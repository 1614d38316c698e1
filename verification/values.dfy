/** Nullable values and error-carrying results shared by the whole model.
    `Option` stands for a column that may be SQL NULL (Python `None`);
    `Result` stands for an operation that either returns or raises. */
module Values {

  datatype Option<+T> = None | Some(value: T) {

    /** The value, or `default` when NULL (SQL `COALESCE`). */
    function GetOr(default: T): T {
      match this
      case Some(v) => v
      case None => default
    }
  }

  datatype Result<+T, +E> = Ok(value: T) | Err(error: E)
}

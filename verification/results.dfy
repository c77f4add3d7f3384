/** Failure-carrying shapes shared by every part of the model.
    `Result` carries the error text the source would put into an exception
    or an error field; `Option` stands for `std::optional` and for lookups
    that may miss. */
module Results {

  datatype Option<+T> = None | Some(value: T) {

    /** The value, or `default` when there is none. */
    function GetOr(default: T): T {
      match this
      case Some(v) => v
      case None => default
    }
  }

  /** A value, or the message of the error that stopped the computation. */
  datatype Result<+T> = Ok(value: T) | Err(msg: string) {

    predicate IsFailure() {
      Err?
    }

    function PropagateFailure<U>(): Result<U>
      requires Err?
    {
      Err(msg)
    }

    function Extract(): T
      requires Ok?
    {
      value
    }
  }

  /** What a recursive-descent parse function returns on success: the node
      it built and the position of the first token after it. */
  datatype Parsed<+T> = Parsed(node: T, next: nat)
}

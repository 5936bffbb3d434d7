/** Result shapes shared by every script model: Python's `None`-or-value returns,
    and the exceptions a call may raise instead of returning. */
module Common {

  datatype Option<+T> = None | Some(value: T)

  /** A call that either returns `value` or raises `error`. */
  datatype Result<+T, +E> = Ok(value: T) | Err(error: E)

  /** A call that returns nothing, or raises `error`. */
  datatype Outcome<+E> = Pass | Fail(error: E)
}

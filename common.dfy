/** Small value wrappers shared by every module of the model. */
module Common {

  /** Python's `X | None`. */
  datatype Option<+T> = None | Some(value: T)

  /** The outcome of an operation that raises `HTTPException` in the source. */
  datatype Result<+T, +E> = Ok(value: T) | Err(error: E)
}

/** The `HTTPException`s the workflow raises, one constructor per message. */
module Errors {

  datatype Error =
    | MovieNotFound                       // 404: no movie with that id
    | ShowtimeNotFound                    // 404: no showtime, seat map or metadata with that id
    | SeatDoesNotExist(seat: string)      // 400: a requested seat is not on the seat map
    | SeatNotAvailable(seat: string)      // 400: a requested seat is not available
    | NothingToRemove                     // 400: no cart line matched the removal
    | CartEmpty                           // 400: checkout of an empty cart
    | SeatNotReserved(seat: string)       // 400: a cart seat is no longer reserved at checkout
  {
    /** The HTTP status code of the exception. */
    function Status(): (code: int)
      ensures code == 404 <==> (MovieNotFound? || ShowtimeNotFound?)
      ensures code == 400 || code == 404
    {
      if MovieNotFound? || ShowtimeNotFound? then 404 else 400
    }
  }
}

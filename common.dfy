/** Shared result and error types of the service's handlers. */
module Common {

  datatype Option<+T> = None | Some(value: T) {
    function GetOr(default: T): T {
      if Some? then value else default
    }
  }

  /** What a handler passes to `next(err)`: an application error with its
      message and (optional) HTTP status, or one of the errors Mongoose raises
      while casting or validating a document. */
  datatype Error =
    | AppError(message: string, status: Option<int>)
    | ValidationError  // a document failed its schema on save, create or update
    | CastError        // a string that is not an ObjectId was used as an id
    | DuplicateKey     // the store refused an `_id` that is already taken

  datatype Result<+T> = Success(value: T) | Failure(error: Error)
}

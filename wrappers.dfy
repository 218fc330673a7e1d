/** Option and Result values used for lookups that may find nothing and for
    operations that may throw. */
module Wrappers {

  /** `None` stands for the `null` a lookup returns when nothing matches. */
  datatype Option<+T> = None | Some(value: T)

  /** `Err` stands for an exception thrown (or a promise rejected). */
  datatype Result<+T, +E> = Ok(value: T) | Err(error: E)
}

/** The exceptions the services throw. */
module Errors {

  datatype Error =
    /** BadRequestException (HTTP 400) with its message. */
    | BadRequest(message: string)
    /** InternalServerErrorException (HTTP 500) with its message. */
    | InternalServerError(message: string)
    /** HttpException built with an explicit status and message. */
    | Http(status: nat, message: string)
    /** The store refusing a record whose email is already taken. */
    | UniqueViolation

  const INTERNAL_SERVER_ERROR: nat := 500
}

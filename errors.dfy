/** What a service call ends with: a value, or the exception it throws. */
module Errors {
  /** ObjectNotFoundException and ValidationException carry their message;
      IllegalArgument stands for the IllegalArgumentException the stream
      library throws for a negative limit. */
  datatype Error = NotFound(message: string) | Validation(message: string) | IllegalArgument

  datatype Result<+T> = Ok(value: T) | Err(error: Error)
}

/** Option and Result values, and the exceptions the modelled code raises. */
module Wrappers {

  datatype Option<+T> = None | Some(value: T)

  /** The Python exceptions (and the project's own error classes) that the
      modelled functions raise; each carries the message it is raised with. */
  datatype Error =
    | InvalidInput(msg: string)              // InvalidInputError
    | InsufficientPermissions(msg: string)   // InsufficientPermissionsError
    | InvalidUsername(msg: string)           // InvalidUsernameError
    | PermissionDenied(msg: string)          // builtin PermissionError
    | ProcessNotFound(msg: string)           // ProcessNotFoundError
    | ContainerNotFound(msg: string)         // docker NotFound on an unknown name
    | ValueError(msg: string)
    | AssertionError(msg: string)
    | IndexError(msg: string)
    | KeyError(msg: string)
    | TypeError(msg: string)
    | IntegrityError(msg: string)            // sqlite3 UNIQUE constraint violation
    | Raised(msg: string)                    // any other exception a collaborator raises

  datatype Result<+T> = Ok(value: T) | Err(error: Error)
}

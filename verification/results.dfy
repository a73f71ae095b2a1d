/** Outcome types shared by the model of the SharePoint access layer.

    Python exceptions become `Err` values; the exceptions the code catches and
    logs become `None` (or `false`) results of the operation that catches them.
 */
module Results {

  /** A value or nothing; Python's `None` return. */
  datatype Option<+T> = None | Some(value: T)

  /** A value, or the exception the call lets escape to its caller. */
  datatype Result<+T> = Ok(value: T) | Err(error: Error)

  /** The two kinds of exception a remote call can raise: the application's
      own `SharepointError`, which some operations catch, and anything else,
      which none of them catch. */
  datatype Raised = SharepointError | ForeignError

  /** What a remote call (an SDK `execute_query`) did. The remote service is
      not modelled, so callers receive its outcome as an input. */
  datatype Outcome = Done | Fails(raised: Raised)

  /** The exceptions that escape an operation of the access layer. */
  datatype Error =
    | MissingCredentials          // the bare `Exception` raised when no secrets are given
    | KeyError(key: string)       // a missing key in the parsed secrets file
    | AttributeError(attribute: string)  // an attribute read from `None`
    | EmptySeparator              // `str.split("")` raises `ValueError`
    | Propagated(raised: Raised)  // a remote failure nobody caught
}

/** Option and Result, and the failures the application can raise. */
module Wrappers {

  datatype Option<+T> = None | Some(value: T)

  datatype Result<+R> = Success(value: R) | Failure(error: Error)

  /** The exceptions that reach a caller of the modelled code. */
  datatype Error =
    | NoResultFound              // `query.one()` matched no row
    | MultipleResultsFound       // `query.one()` matched more than one row
    | ValidationError            // pydantic refused a row (a NULL `username`)
    | IntegrityError             // a commit broke a UNIQUE constraint
    | KeyError(key: string)      // a dict was indexed with a missing key
    | TypeError                  // a value that is not a dict was indexed by a key
    | AttributeError(name: string) // an attribute that the object does not have
    | HttpError(statusCode: int, detail: string) // FastAPI's HTTPException
}

/** Optional values and the error results the request handlers report. */
module Results {

  /** A nullable column or an absent request field. */
  datatype Option<+T> = None | Some(value: T)

  /** The failures a handler can answer with instead of its normal result. */
  datatype Error =
    | NotFound       // 404: no task with that id is owned by the caller
    | AlreadyActive  // 400: restore of a task that is not in the trash
    | UserExists     // 400: registration under a username that is taken
    | Unauthorized   // 401: unknown username or wrong password
    | Rejected       // the store refuses the row: null title, over-long column or unknown owner

  datatype Result<+T> = Ok(value: T) | Err(error: Error)
}

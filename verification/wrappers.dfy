/** Small failure-carrying datatypes shared by the adapter and the endpoint. */
module Wrappers {

  /** A value that may be absent: a JSON field that was not sent, a range with no values. */
  datatype Option<+T> = None | Some(value: T)

  /** What an awaited call into the spreadsheet service produced: its value, or a failure
      (transport, auth, quota, malformed range) whose cause is only logged. */
  datatype Outcome<+T> = Ok(value: T) | Failed(cause: string)
}

/** Optional values and error-carrying results, standing in for Python's
    `None` returns and for the exceptions the handlers catch and report. */
module Outcomes {

  /** `None` of the Python code, or a present value. */
  datatype Option<+T> = None | Some(value: T)

  /** A value, or the message of the exception that replaced it. */
  datatype Result<+T> = Ok(value: T) | Err(message: string)

  /** A JSON object member as `dict.get` sees it: missing, JSON `null`, or a value. */
  datatype Field<+T> = Absent | Null | Present(value: T)
}

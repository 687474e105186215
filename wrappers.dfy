/** Failure-carrying values shared by every module: the Go code returns
    `(value, error)` pairs, which become an `Outcome`, and nullable
    results, which become an `Option`. */
module Wrappers {

  datatype Option<+T> = None | Some(value: T)

  /** `Ok(v)` is a call that returned `v` with a nil error; `Err(msg)` one
      that returned a non-nil error whose text is `msg`. */
  datatype Outcome<+T> = Ok(value: T) | Err(msg: string)
}

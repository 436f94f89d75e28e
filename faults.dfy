/** Optional values and the outcome of an operation that may panic.

    The checker calls `check(err)` after the reads it considers mandatory and
    indexes slices without bounds checks; either aborts the whole run with a
    Go panic.  The model turns each such abort into an explicit `Panic` value
    that names what went wrong. */
module Faults {

  datatype Option<T> = None | Some(value: T)

  /** Why a run was aborted. */
  datatype Fault =
    | ReadFailed(path: string)           // a mandatory file could not be read
    | IndexOutOfRange(path: string)      // `strings.Split(intf, "/")[4]` on a short path

  datatype Result<T> = Ok(value: T) | Panic(fault: Fault)
}

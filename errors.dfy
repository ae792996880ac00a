/** Error values of the patch library. Go returns `error` values built with
    `fmt.Errorf`; here each distinct failure is a tag, and the message text is
    not modelled. */
module Errors {

  /** A PatchMap label as the lookup operations receive it: Go's `any`, which is
      either a string or a value of some other dynamic type. */
  datatype AnyLabel = StringLabel(s: string) | OtherLabel

  datatype Error =
    | EmptyOptional                 // the optional library: unwrapping an empty optional
    | UnsupportedRemove             // Remove applied to a plain (non-optional) field
    | NilReplace                    // Replace carrying no value applied to a plain field
    | DuplicateLabel(name: string) // PatchMap.Append with a label already in use
    | NotFound(key: AnyLabel)       // PatchMap lookup reporting a missing label
    | FailedEntry(entry: string)    // PatchMap.ApplyAll stopping at a failed entry
    | NilPatcherCall                // a method called on a nil Patcher: a Go runtime panic

  /** The result of an operation that returns only a Go `error`. */
  datatype Outcome = Pass | Fail(error: Error)

  /** The result of an operation that returns a value and a Go `error`. */
  datatype Result<T> = Ok(value: T) | Err(error: Error)
}

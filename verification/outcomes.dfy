/** Failure-carrying results shared by every step of a deploy run. */
module Outcomes {

  /** Every way a deploy run can stop early. */
  datatype Error =
    | UnknownTagFormat(tag: string)     // the nearest tag does not split into 3, 4 or 5 parts
    | UnknownReleaseType(key: string)   // the chosen release key is not a candidate
    | GitTagFailed(newTag: string)      // `git tag <newTag>` exited non-zero
    | GitPushFailed                     // `git push` exited non-zero
    | GitPushTagsFailed                 // `git push --tags` exited non-zero
    | MissingOption(name: string)       // a `{name}` placeholder had no `--set-name` and no default
    | OutOfFuel                         // placeholder rescanning did not settle within the given fuel

  datatype Option<+T> = None | Some(value: T)

  datatype Result<+T> = Ok(value: T) | Err(error: Error) {

    predicate IsFailure() {
      Err?
    }

    function PropagateFailure<U>(): Result<U>
      requires Err?
    {
      Err(error)
    }

    function Extract(): T
      requires Ok?
    {
      value
    }
  }
}

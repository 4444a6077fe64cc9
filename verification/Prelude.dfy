/** Shared result types and small facts about sequences and sets. */
module Prelude {

  datatype Option<+T> = None | Some(value: T)

  /** How a piece of protocol code ends.
      `Reject` is a deterministic protocol rejection: it is recorded and replay goes on.
      `Fault` is any other thrown error: it aborts the batch and leaves the cursor alone. */
  datatype Outcome<+T> = Ok(value: T) | Reject(reason: string) | Fault(error: string)

  /** The result of an operation whose only failure is a thrown error. */
  datatype Result<+T> = Done(value: T) | Error(message: string)

  ghost predicate Distinct<T(!new)>(s: seq<T>) {
    forall i, j :: 0 <= i < j < |s| ==> s[i] != s[j]
  }

  function Max(a: int, b: int): int { if a < b then b else a }

  function Min(a: int, b: int): int { if a < b then a else b }

  const MAX_SAFE_INTEGER := 0x1F_FFFF_FFFF_FFFF

  /** Number.isSafeInteger. */
  predicate SafeInteger(n: int) { -MAX_SAFE_INTEGER <= n <= MAX_SAFE_INTEGER }
}

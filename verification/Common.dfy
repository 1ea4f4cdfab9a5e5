/** Values every component shares: optional and failing results, identifiers and the clock. */
module Common {

  datatype Option<+T> = None | Some(value: T)

  datatype Result<+T, +E> = Ok(value: T) | Err(error: E)

  // The outcome of a policy decision.
  datatype Decision = Allow | Deny | RequireApproval(approver: Option<Uuid>, reason: string)

  // An identifier is its canonical text, the form the system stores and prints.
  type Uuid = string

  // A point in time, in nanoseconds since the epoch.
  type Instant = int

  const SECOND: int := 1_000_000_000
  const MINUTE: int := 60 * SECOND

  // The whole-second timestamp of an instant, rounded down.
  function Seconds(t: Instant): int {
    t / SECOND
  }

  function Min(a: int, b: int): int {
    if a <= b then a else b
  }

  function Max(a: int, b: int): int {
    if a <= b then b else a
  }

  // Integer division rounding toward zero, as on machine integers.
  function Truncated(a: int, b: int): int
    requires b != 0
  {
    if a >= 0 then a / b else -(-a / b)
  }
}

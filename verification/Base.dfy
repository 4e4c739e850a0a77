/** Vocabulary shared by the models: optional values, the result of a fallible
    call, machine bounds and the clock unit. */
module Base {

  datatype Option<+T> = None | Some(value: T)

  /** The cases of the application's error type that the modelled code returns. */
  datatype Error = Validation | PermissionDenied | Unavailable | NotFound | Storage

  datatype Result<+T> = Ok(value: T) | Err(error: Error)

  const U64_MAX: nat := 0xFFFF_FFFF_FFFF_FFFF
  const ISIZE_MAX: nat := 0x7FFF_FFFF_FFFF_FFFF

  /** Instants and durations are counted in nanoseconds. */
  type Instant = int
  const SECOND: nat := 1_000_000_000

  function SaturatingAdd(a: nat, b: nat): nat {
    if a + b <= U64_MAX then a + b else U64_MAX
  }

  function SaturatingSub(a: nat, b: nat): nat {
    if b <= a then a - b else 0
  }
}

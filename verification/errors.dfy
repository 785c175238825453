/** The errors the program's fallible operations can produce. In the
    program they are all boxed as `Box<dyn Error>`; here each keeps the
    information its origin carries. */
module Errors {

  datatype Error =
    /** A checked `try_into()` whose value does not fit the target type. */
    | IntConversion
    /** `duration_since(UNIX_EPOCH)` on a clock reading before the epoch. */
    | ClockBeforeEpoch
    /** An error raised with `error_chain::bail!`, carrying its message. */
    | Bail(message: string)
    /** An error wrapped by `chain_err`: the new message and the cause's. */
    | Chained(message: string, cause: string)
}

/** The environment-dependent half of identity derivation: the clock, the
    process id, the checked conversions of `timestamp`, and the UUID
    constructors of the `uuid` crate, which the model takes as given
    deterministic functions. */
module Identity {
  import opened Wrappers
  import opened Ints
  import opened Errors

  const NanosPerSec: nat := 1_000_000_000

  /** A `Duration` since the UNIX epoch, counted in nanoseconds. */
  datatype Duration = Duration(nanos: nat) {

    /** `as_secs()`: whole seconds. */
    function Secs(): nat {
      nanos / NanosPerSec
    }

    /** `subsec_nanos()`: the nanoseconds past the last whole second. */
    function SubsecNanos(): nat {
      nanos % NanosPerSec
    }
  }

  /** What `timestamp` reads from its surroundings: `process::id()` and the
      system clock, in nanoseconds relative to the UNIX epoch (negative
      before it). */
  datatype Env = Env(pid: u32, clock: int)

  /** The arguments `Timestamp::from_unix` receives: the seed of the
      clock-sequence `Context`, the whole seconds, and the nanosecond
      argument. How the crate turns them into a v1 timestamp is not modelled. */
  datatype Timestamp = Timestamp(context: u16, seconds: nat, nanos: u32)

  /** `Uuid::new_v5(&Uuid::NAMESPACE_DNS, name.as_bytes()).to_string()`. */
  type NameUuid = string -> string

  /** `Uuid::new_v1(ts, node_id)` followed by `to_string()`; a failure carries
      the crate's error text. */
  type TimeUuid = (Timestamp, string) -> Result<string, string>

  /** `now`: the time elapsed since the UNIX epoch; `duration_since` fails
      for a clock set before it. */
  function Now(clock: int): (r: Result<Duration, Error>)
    ensures r.Failure? <==> clock < 0
    ensures r.Failure? ==> r.error == ClockBeforeEpoch
    ensures r.Success? ==> r.value.Secs() * NanosPerSec + r.value.SubsecNanos() == clock
  {
    if clock < 0 then Failure(ClockBeforeEpoch) else Success(Duration(clock))
  }

  /** A checked `try_into()` to `u16`. */
  function TryIntoU16(v: int): (r: Result<u16, Error>)
    ensures r.Success? <==> 0 <= v <= U16_MAX
    ensures r.Success? ==> r.value == v
    ensures r.Failure? ==> r.error == IntConversion
  {
    if 0 <= v <= U16_MAX then Success(v) else Failure(IntConversion)
  }

  /** A checked `try_into()` to `u32`. */
  function TryIntoU32(v: int): (r: Result<u32, Error>)
    ensures r.Success? <==> 0 <= v <= U32_MAX
    ensures r.Success? ==> r.value == v
    ensures r.Failure? ==> r.error == IntConversion
  {
    if 0 <= v <= U32_MAX then Success(v) else Failure(IntConversion)
  }

  /** `timestamp` as written: the context is seeded with `pid / 0xff`, and
      the nanosecond argument is the WHOLE duration in nanoseconds divided by
      0xffff. Both narrowings are checked; the first failure wins. */
  function CurrentTimestamp(env: Env): (r: Result<Timestamp, Error>)
    ensures r.Failure? <==> env.pid / 0xff > U16_MAX || env.clock < 0 || env.clock / 0xffff > U32_MAX
    ensures env.pid / 0xff > U16_MAX ==> r == Failure(IntConversion)
    ensures env.pid / 0xff <= U16_MAX && env.clock < 0 ==> r == Failure(ClockBeforeEpoch)
    ensures env.clock >= 0 && env.clock / 0xffff > U32_MAX ==> r == Failure(IntConversion)
    ensures r.Success? ==> r.value.context == env.pid / 0xff
    ensures r.Success? ==> r.value.seconds * NanosPerSec <= env.clock < (r.value.seconds + 1) * NanosPerSec
    ensures r.Success? ==> r.value.nanos == env.clock / 0xffff
  {
    var context :- TryIntoU16(env.pid / 0xff);
    var systime :- Now(env.clock);
    var nanos :- TryIntoU32(systime.nanos / 0xffff);
    Success(Timestamp(context, systime.Secs(), nanos))
  }

  /** `timestamp` as evidently intended: `from_unix` takes the nanoseconds
      past the second, which always fit a `u32`. */
  function CurrentTimestampIntended(env: Env): (r: Result<Timestamp, Error>)
    ensures r.Failure? <==> env.pid / 0xff > U16_MAX || env.clock < 0
    ensures env.pid / 0xff > U16_MAX ==> r == Failure(IntConversion)
    ensures env.pid / 0xff <= U16_MAX && env.clock < 0 ==> r == Failure(ClockBeforeEpoch)
    ensures r.Success? ==> r.value.context == env.pid / 0xff
    ensures r.Success? ==> r.value.nanos < NanosPerSec
    ensures r.Success? ==> r.value.seconds * NanosPerSec + r.value.nanos == env.clock
  {
    var context :- TryIntoU16(env.pid / 0xff);
    var systime :- Now(env.clock);
    Success(Timestamp(context, systime.Secs(), systime.SubsecNanos()))
  }

  /** The largest clock reading, in nanoseconds, that `timestamp` as written
      accepts: 0xffff * (u32::MAX + 1) - 1, about 3.26 days after the epoch. */
  const LastAcceptedClock: int := 0xffff * (U32_MAX + 1) - 1

  /** `timestamp` as written accepts a clock reading only up to
      `LastAcceptedClock`, and every later one fails its second conversion. */
  lemma TimestampWindow(env: Env)
    requires env.pid / 0xff <= U16_MAX
    ensures CurrentTimestamp(env).Success? <==> 0 <= env.clock <= LastAcceptedClock
  {
    if env.clock >= 0 {
      var q := env.clock / 0xffff;
      assert env.clock == 0xffff * q + env.clock % 0xffff;
    }
  }

  /** A concrete clock reading that shows the overflow: 2023-11-14 22:13:20
      UTC (1,700,000,000 seconds after the epoch) fails as written and
      succeeds as intended, for any process id below 0xff * 0x10000. */
  lemma TimestampFailsOnPresentClock(pid: u32)
    requires pid < 0xff * 0x1_0000
    ensures CurrentTimestamp(Env(pid, 1_700_000_000 * NanosPerSec)) == Failure(IntConversion)
    ensures CurrentTimestampIntended(Env(pid, 1_700_000_000 * NanosPerSec))
         == Success(Timestamp(pid / 0xff, 1_700_000_000, 0))
  {
  }
}

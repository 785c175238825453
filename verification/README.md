# mkvm resource configuration, modelled in Dafny

`mkvm` provisions virtual-machine clusters. The part modelled here is the
identity derivation and record assembly in `src/main.rs`:

- `macaddress(prefix, cluster, node)` builds a locally-administered MAC
  address from three `u16` values. It refuses a prefix whose bit `0x0200`
  (bit `0x02` of the first octet, the IEEE 802 universal/local bit) is
  clear. Otherwise it prints the high and low byte of each input as
  `{:02x}`, joined by colons.
- `timestamp()` seeds a v1 UUID clock-sequence context with
  `process::id() / 0xff` and calls `Timestamp::from_unix`. It narrows both
  values with checked `try_into` conversions.
- `config(cluster, gpaths, rpaths, params)` assembles a `Config`. It holds
  the `Globals` path set, the cluster `Network`, two storage `Pool`s with v1
  UUIDs, and an empty node list.

Modules, one per concern:

| file | module | content |
|---|---|---|
| wrappers.dfy | `Wrappers` | `Option`, `Result` |
| ints.dfy | `Ints` | `u16`, `u32`, division facts |
| bits.dfy | `Bits` | Rust's `&`, `>>`, `<<` on naturals, the masks of `macaddress` |
| hex.dfy | `Hex` | `{:x}`/`{:0Nx}` printing and its inverse |
| errors.dfy | `Errors` | the errors `config` can return |
| mac.dfy | `Mac` | `macaddress`, its parser, round trip |
| identity.dfy | `Identity` | `now`, `timestamp`, the UUID constructors as parameters |
| resources.dfy | `Resources` | the record types and `config` |

The environment and the foreign code are inputs to the model:

- The process id and the system clock are fields of `Identity.Env`.
- `Uuid::new_v5(&Uuid::NAMESPACE_DNS, ..)` and `Uuid::new_v1(..)` are the
  function-valued parameters `uuid5` and `uuid1`. Dafny functions are
  deterministic, so equal inputs give equal UUIDs.

The program's own test `configuration_is_valid` (src/main.rs:328-336)
expects domain `2mincloud.com` and MAC `52:54:00:f9:01:00`. The code
produces `f900.2mincloud.com` and `02:00:f9:00:00:00` for those inputs. The
model follows the code; `Resources.ShippedNetwork` states what the code
produces. The two `macaddress` tests have swapped names:
`macaddress_is_valid` expects the rejection, `macaddress_is_rejected` the
success.

The code divides the process id by `0xff` and then checks that the
quotient fits a `u16`. It does not reduce the value into range, so a too
large quotient is an error.

## Model

| member | source | states |
|---|---|---|
| Bits.TestBit9 | src/main.rs:42 | `x & 0x0200 == 0` holds exactly when bit 9 of `x` is clear; the mask looks at no other bit |
| Bits.HighByte | src/main.rs:46-48 | for a 16-bit `x`, `(x & 0xff00) >> 8` is the high byte `x / 256` |
| Bits.LowByte | src/main.rs:46-48 | `x & 0x00ff` is the low byte `x % 256` |
| Hex.FormatReadsBack | src/main.rs:74-75 | `{:0Nx}` prints lower-case digits that read back as the number; the length is the larger of N and the digit count, so nothing is truncated, and no digit is printed beyond what the number or the padding needs |
| Hex.FormatFixedWidth | src/main.rs:45-48 | a number below 16^w printed with `{:0wx}` has exactly w digits |
| Mac.MacAddress | src/main.rs:41-50 | fails exactly when bit `0x0200` of the prefix is clear, with the bail message naming the prefix; `cluster` and `node` never cause a failure |
| Mac.PrefixMessageNamesPrefix | src/main.rs:43 | the rejection message is the fixed text followed by the prefix as four lower-case hex digits that read back as the prefix |
| Mac.MacAddressOctets | src/main.rs:45-48 | an accepted address prints, in order, the high and low bytes of `prefix`, `cluster` and `node` with `{:02x}`, joined by colons |
| Mac.OctetTextReadsBack | src/main.rs:45 | `{:02x}` of a byte is two lower-case hex digits that read back as the byte |
| Mac.OctetTextDigits | src/main.rs:45 | `{:02x}` of a byte is its high then its low hex digit |
| Mac.MacAddressDigits | src/main.rs:45-48 | an accepted address spelled character by character |
| Mac.MacAddressShape | src/main.rs:45-48 | an accepted address has 17 characters: six lower-case two-digit hex fields separated by colons, field i holding the i-th octet |
| Mac.MacRoundTrip | src/main.rs:45-48 | parsing an accepted address gives back `(prefix, cluster, node)` |
| Mac.ParseMacCanonical | src/main.rs:45-48 | conversely, any text that parses to a triple with bit `0x0200` set is exactly the address `macaddress` builds from that triple |
| Mac.MacAddressInjective | src/main.rs:45-48 | distinct accepted triples give distinct addresses |
| Mac.AcceptedExample | src/main.rs:284-289 | `macaddress(0x0200, 0xcafe, 0xbabe)` is `02:00:ca:fe:ba:be` |
| Mac.RejectedExample | src/main.rs:277-282 | `macaddress(0x0100, 0xcafe, 0xbabe)` fails with the message ending `0100` |
| Mac.MulticastBitNotChecked | src/main.rs:42 | `0x0300` is accepted although its group bit `0x0100` is set, and its address round-trips |
| Identity.Now | src/main.rs:29-31 | the elapsed time fails exactly for a clock before the epoch; otherwise its seconds and sub-second nanoseconds recompose the clock reading |
| Identity.TryIntoU16 | src/main.rs:36 | a checked narrowing: succeeds with the same value exactly when it fits 16 bits, never wraps |
| Identity.TryIntoU32 | src/main.rs:38 | a checked narrowing: succeeds with the same value exactly when it fits 32 bits, never wraps |
| Identity.CurrentTimestamp | src/main.rs:33-39 | fails exactly when `pid / 0xff` exceeds `u16::MAX`, the clock is before the epoch, or `nanos / 0xffff` exceeds `u32::MAX`, in that order of precedence; on success the context is `pid / 0xff` and the seconds are the whole seconds of the clock |
| Identity.TimestampWindow | src/main.rs:38 | with a valid process id, the timestamp is made exactly for clock readings from the epoch up to 0xffff * 2^32 - 1 ns |
| Identity.TimestampFailsOnPresentClock | src/main.rs:38 | a clock reading 1,700,000,000 s after the epoch fails as written and succeeds with the corrected conversion |
| Identity.CurrentTimestampIntended | src/main.rs:38 | with the sub-second nanoseconds as argument, only the process id or a pre-epoch clock can fail; the seconds and nanoseconds recompose the clock reading |
| Resources.MakeGlobals | src/main.rs:60-68 | `globals` holds the three absolute and the four relative paths, field by field |
| Resources.MakeNetwork | src/main.rs:71-79 | name, interface and bridge come from `params`; the UUID is `uuid5` of the network name; `cluster` is `params.cluster` as lower-case hex of at least four digits that reads back as the tag; `domain` is `cluster + "." + params.domain`; the MAC address parses back to `(0x0200, cluster, 0)` |
| Resources.MakePool | src/main.rs:82-93 | a pool succeeds exactly when its v1 UUID does; a failure is wrapped with `failed to generate UUID for pool: <name>` |
| Resources.Assemble | src/main.rs:59-101 | succeeds exactly when both v1 UUIDs succeed; an `images` failure takes precedence over a `combustion` one; the result has the copied paths, the derived network, the pools `images` then `combustion`, and no nodes |
| Resources.BuildConfig | src/main.rs:52-127 | a timestamp failure is returned unchanged; otherwise `config` succeeds exactly when both pool UUIDs do, and the result is the derived configuration for that timestamp |
| Resources.BuildConfigIntended | src/main.rs:52-127 | the same assembly over the corrected timestamp |
| Resources.NetworkMacNeverFails | src/main.rs:78 | `macaddress(0x0200, cluster, 0)` succeeds for every cluster, so the `?` at this line never returns, and the network holds that address |
| Resources.GlobalsOnlyFromPaths | src/main.rs:60-68 | two successful calls with the same path sets have equal `globals`, whatever the other inputs |
| Resources.NetworkUuidFromNameOnly | src/main.rs:73 | equal network names give equal network UUIDs, whatever the other inputs |
| Resources.UnusedParamsIgnored | src/main.rs:52-101 | `masters`, `workers`, `rootpw` and `network_macaddress_prefix` do not influence the result |
| Resources.MacFromClusterArgument | src/main.rs:74-78 | the MAC address takes its cluster octets from the `cluster` argument and not from `params.cluster`, which feeds only `cluster` and `domain` |
| Resources.ShippedNetwork | src/main.rs:144-156 | for the program's own inputs the network has cluster `f900`, domain `f900.2mincloud.com` and MAC `02:00:f9:00:00:00` |
| Resources.ShippedAddress | src/main.rs:78 | `macaddress(0x0200, 0xf900, 0)` is `02:00:f9:00:00:00` |
| Resources.ConfigFailsOnPresentClock | src/main.rs:57 | as written, `config` fails with a conversion error for every clock reading after 0xffff * 2^32 - 1 ns, before any record is built |
| Resources.IntendedConfigSucceeds | src/main.rs:57 | with the corrected timestamp, `config` succeeds for every clock reading from the epoch on, given a valid process id and a `uuid1` that accepts both pool names |

## Findings

| source | as written | input that shows it | evidently intended | confidence | as-written member | corrected member |
|---|---|---|---|---|---|---|
| src/main.rs:38 | `(systime.as_nanos() / 0xffff).try_into()?` narrows the whole time since 1970, divided by 0xffff, to the `u32` sub-second argument of `Timestamp::from_unix` | a clock 1,700,000,000 s after the epoch: 1.7e18 / 0xffff is about 2.6e13, more than `u32::MAX`. Every clock from 1970-01-04 06:11:11 UTC on fails, so `config` always returns an error | pass `systime.subsec_nanos()`, which is always below 10^9 | medium (not executed) | `Identity.CurrentTimestamp`, shown by `Identity.TimestampFailsOnPresentClock` | `Identity.CurrentTimestampIntended`, with `Resources.IntendedConfigSucceeds` |

`Resources.BuildConfig` models `config` as written. `Resources.BuildConfigIntended`
is the same assembly over the corrected timestamp.

## Left out

- `create_network` and the `render_globals` test: file reads and writes, directory creation and `gtmpl` rendering are I/O and a foreign library.
- `main`: it only fixes constants and discards the result. Its inputs appear in `Resources.ShippedNetwork`.
- The commented-out `Combustion` and `Node` construction is dead code. The record types are declared, and `config` always returns an empty node list.
- The `uuid` crate is foreign code. Its SHA-1 name-based derivation (section 4.3 of RFC 4122) and its time-based derivation (section 4.2) are the parameters `uuid5` and `uuid1`. So are its acceptance rules for node ids and its `to_string` formatting.
- `Identity.Timestamp` records the arguments of `Timestamp::from_unix` and the context seed. The crate's conversion to 100-ns ticks and the context's atomic counter are not modelled.
- The UTF-8 encoding of `as_bytes()` is folded into `uuid5` and `uuid1`, which take the string itself.
- `process::id()` and `SystemTime::now()` are the fields of `Identity.Env`.
- The `u64` range of `Duration::as_secs` is not modelled: a `SystemTime` cannot reach it.
- Error values keep their origin (`IntConversion`, `ClockBeforeEpoch`, `Bail`, `Chained`). The standard library's display texts for the first two are not modelled.
- The expectations of the test `configuration_is_valid` contradict the code and are not stated as properties.
- Template fixed-point resolution, strict YAML decoding, hostname lookup and standard-input handling have no code in `src/main.rs`. They are not part of this model.

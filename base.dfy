/** Shared data of the timedb model: the record it stores, a stored entry,
    and the Go library facilities the core calls but does not implement. */
module Base {

  datatype Option<+T> = None | Some(value: T) {
    function GetOr(default: T): T {
      match this
      case Some(v) => v
      case None => default
    }
  }

  datatype Result<+T, +E> = Ok(value: T) | Err(error: E)

  /** An instant, in nanoseconds since Go's zero time `time.Time{}`. */
  type Instant = int

  /** A `time.Duration`: a signed count of nanoseconds. */
  type Duration = int

  /** The zero `time.Time{}`; returned by every failed time parse. */
  const Zero: Instant := 0

  /** One measured invocation (`CommandInfo`). Of the rusage counters only
      the signal count is read by the core; the others are opaque payload. */
  datatype CommandInfo = CommandInfo(
    cmd: string,
    cmdKey: string,
    wall: Duration,
    user: Duration,
    system: Duration,
    start: Instant,
    exitCode: int,
    nsignals: int)

  /** One key/value pair of the ordered store, as its iterator yields it.
      A `char` of the key stands for one byte. */
  datatype Entry = Entry(key: string, value: seq<bv8>)

  /** The clock and library functions the core depends on, as parameters.
      - now: `time.Now()` (one reading for the whole invocation)
      - parseLocal(layout, text): `time.ParseInLocation(layout, text, time.Local)`
      - parse(layout, text): `time.Parse(layout, text)` (UTC)
      - format(t, layout): `t.Format(layout)` for a time in UTC, the zone
        `run` stores every start in (`start.UTC()`)
      - year(t): `t.Year()`
      - anchorToday(t): `t.AddDate(now.Year(), int(now.Month())-1, now.Day()-1)`
      - parseDuration(text): `time.ParseDuration(text)`
      - atoi(text): `strconv.Atoi(text)`
      - decodeValue(bytes): msgpack decoding of a stored value into a CommandInfo */
  datatype Lib = Lib(
    now: Instant,
    parseLocal: (string, string) -> Option<Instant>,
    parse: (string, string) -> Option<Instant>,
    format: (Instant, string) -> string,
    year: Instant -> int,
    anchorToday: Instant -> Instant,
    parseDuration: string -> Option<Duration>,
    atoi: string -> Option<int>,
    decodeValue: seq<bv8> -> Option<CommandInfo>)
}

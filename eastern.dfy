/**
 * The clock and calendar of America/New_York and the JavaScript date-string
 * parser.  The scripts read them through `Intl.DateTimeFormat` and
 * `new Date(string)`; the model takes them as given functions.
 */
module Eastern {
  import opened Wrappers
  import opened Text
  import Calendar
  import Js

  /** An hour of the 24-hour clock; midnight may be reported as 24. */
  type Hour = h: nat | h <= 24
  type Minute = m: nat | m < 60

  /** Wall-clock hour and minute as `Intl.DateTimeFormat` reports them. */
  datatype Clock = Clock(hour: Hour, minute: Minute)

  datatype Oracles = Oracles(
    /** The Eastern calendar date of an instant (epoch milliseconds). */
    date: int -> Calendar.Civil,
    /** The Eastern wall clock at an instant. */
    clock: int -> Clock,
    /** `new Date(text)`: the instant a text denotes, or None for an invalid date. */
    parseDate: string -> Option<int>,
    /** `String(date)`: the long date text of an instant in the host's time zone. */
    dateString: int -> string,
    /** The current instant. */
    now: int)

  /** `etDay`: the Eastern date of an instant as `YYYY-MM-DD`. */
  function EtDay(env: Oracles, t: int): (r: string)
    ensures '|' !in r
  {
    Calendar.FormatYmd(env.date(t))
  }

  /** `timeKeyLocal`: the Eastern wall clock as `HH:MM`. */
  function TimeKey(env: Oracles, t: int): (r: string)
    ensures '|' !in r
  {
    var c := env.clock(t);
    Pad2(c.hour) + ":" + Pad2(c.minute)
  }

  /** Minutes past midnight on the Eastern wall clock (`hh * 60 + mm`). */
  function WallMinutes(env: Oracles, t: int): (r: nat)
    ensures r < 25 * 60
  {
    env.clock(t).hour * 60 + env.clock(t).minute
  }

  /** TimeClip of a number: a valid time value, or None for an invalid date. */
  function TimeClip(n: Js.Number): (r: Option<int>)
    ensures r.Some? ==> -Calendar.MaxTime <= r.value <= Calendar.MaxTime
  {
    match n
    case Finite(x) =>
      if -Calendar.MaxTime as real <= x <= Calendar.MaxTime as real then Some(Js.Trunc(x)) else None
    case _ => None
  }

  /**
   * `new Date(v)`: a number is a time value, `true`/`false`/`null` are 1, 0
   * and 0, `undefined` is an invalid date, and anything else is converted
   * to a string and parsed.
   */
  function NewDate(env: Oracles, v: Js.Value): (r: Option<int>)
    ensures v.Undefined? ==> r.None?
    ensures v.Str? ==> r == env.parseDate(v.s)
  {
    match v
    case Num(n) => TimeClip(n)
    case Bool(b) => Some(if b then 1 else 0)
    case Null => Some(0)
    case Undefined => None
    case _ => env.parseDate(Js.ToStr(v))
  }
}

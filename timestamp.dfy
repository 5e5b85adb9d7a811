/**
 * Windows timestamps: the 1601-01-01 epoch, the conversion of a tick count,
 * and the variant dispatch shared by every timestamp type of the directory layer.
 * A `DateTime<Utc>` is represented by its distance from the 1601 epoch in microseconds.
 */
module Timestamps {
  import opened Wrappers
  import opened Bytes
  import opened Values
  import opened Errors

  datatype UtcDateTime = UtcDateTime(microsSince1601: int)

  /** Days from 0001-01-01 to January 1st of year y in the proleptic Gregorian calendar. */
  function DaysBeforeYear(y: int): int
    requires y >= 1
  {
    var p := y - 1;
    365 * p + p / 4 - p / 100 + p / 400
  }

  /** The instant at midnight UTC starting January 1st of year y. */
  function NewYear(y: int): UtcDateTime
    requires y >= 1601
  {
    UtcDateTime((DaysBeforeYear(y) - DaysBeforeYear(1601)) * 86_400 * 1_000_000)
  }

  /** `BASE_DATETIME`: 1601-01-01 00:00:00 UTC. */
  const BaseDateTime: UtcDateTime := NewYear(1601)

  /** The Unix epoch, 1970-01-01 00:00:00 UTC. */
  const UnixEpoch: UtcDateTime := NewYear(1970)

  /** `DateTime::timestamp()`: whole seconds since the Unix epoch, rounded towards minus infinity. */
  function UnixTimestamp(t: UtcDateTime): int {
    (t.microsSince1601 - UnixEpoch.microsSince1601) / 1_000_000
  }

  /** The epoch constant is the origin of the representation and lies 11644473600 s before 1970. */
  lemma BaseDateTimeTimestamp()
    ensures BaseDateTime.microsSince1601 == 0
    ensures UnixTimestamp(BaseDateTime) == -11_644_473_600
  {
  }

  /** Rust's `/` on i64: the quotient is truncated towards zero. */
  function TruncatingDiv(v: int, d: nat): int
    requires d > 0
  {
    if v >= 0 then v / d else -((-v) / d)
  }

  /** `dt_base + Duration::microseconds(ticks / 10)`: 100-nanosecond ticks since 1601, truncated to microseconds. */
  function TicksToDateTime(ticks: i64): UtcDateTime {
    UtcDateTime(BaseDateTime.microsSince1601 + TruncatingDiv(ticks, 10))
  }

  /** The conversion loses less than one microsecond and never changes the sign. */
  lemma TicksToDateTimeBounds(ticks: i64)
    ensures var us := TicksToDateTime(ticks).microsSince1601;
      && (ticks >= 0 ==> 0 <= ticks - 10 * us < 10)
      && (ticks < 0 ==> 0 <= 10 * us - ticks < 10)
  {
  }

  /** Later tick counts never give earlier instants. */
  lemma TicksToDateTimeMonotonic(a: i64, b: i64)
    requires a <= b
    ensures TicksToDateTime(a).microsSince1601 <= TicksToDateTime(b).microsSince1601
  {
  }

  /**
   * `from_value_opt` of every timestamp type: a `Currency` cell is converted by
   * the type's own `from`, a null cell is absent, and every other variant is an
   * error carrying the value's text.
   */
  function FromValueOpt<T>(v: Value, from: i64 -> T): (r: Result<Option<T>, Error>)
    ensures r == Ok(None) <==> v.Null?
    ensures r.Ok? <==> v.Null? || v.Currency?
    ensures v.Currency? ==> r == Ok(Some(from(v.c)))
    ensures r.Err? ==> r.error == InvalidValueDetected(ValueText(v))
  {
    match v
    case Currency(c) => Ok(Some(from(c)))
    case Null => Ok(None)
    case _ => Err(InvalidValueDetected(ValueText(v)))
  }
}

/** System.DateTime reduced to its calendar fields, with the ordering the queries use and
    the custom format specifiers the archive entry names use ("MMM", "dd", "hh.mmtt"),
    printed as the invariant culture prints them. Month lengths and leap years are not
    checked. */
module Calendar {
  import opened Wrappers
  import opened Text

  datatype DateTimeFields = DateTimeFields(year: int, month: int, day: int, hour: int, minute: int, second: int)

  predicate ValidFields(d: DateTimeFields) {
    && 1 <= d.year <= 9999
    && 1 <= d.month <= 12
    && 1 <= d.day <= 31
    && 0 <= d.hour < 24
    && 0 <= d.minute < 60
    && 0 <= d.second < 60
  }

  type DateTime = d: DateTimeFields | ValidFields(d) witness DateTimeFields(1, 1, 1, 0, 0, 0)

  /** DateTime.MinValue, the value of a DateTime field nobody has set. */
  const MinValue: DateTime := DateTimeFields(1, 1, 1, 0, 0, 0)

  /** A number that orders date-times chronologically (fields compared lexicographically). */
  function Ticks(d: DateTime): int {
    ((((d.year * 12 + (d.month - 1)) * 31 + (d.day - 1)) * 24 + d.hour) * 60 + d.minute) * 60 + d.second
  }

  /** a <= b on DateTime. */
  predicate AtOrBefore(a: DateTime, b: DateTime) {
    Ticks(a) <= Ticks(b)
  }

  const MonthAbbreviations: seq<string> :=
    ["Jan", "Feb", "Mar", "Apr", "May", "Jun", "Jul", "Aug", "Sep", "Oct", "Nov", "Dec"]

  /** The year as interpolating the int Year prints it: decimal digits, no padding. */
  function YearText(d: DateTime): string {
    NatToString(d.year)
  }

  /** The "MMM" specifier. */
  function MonthText(d: DateTime): string {
    MonthAbbreviations[d.month - 1]
  }

  /** The "dd" specifier. */
  function DayText(d: DateTime): string {
    TwoDigits(d.day)
  }

  /** The hour on a 12-hour clock, 12 for midnight and noon. */
  function Hour12(d: DateTime): (h: int)
    ensures 1 <= h <= 12
  {
    if d.hour % 12 == 0 then 12 else d.hour % 12
  }

  /** The "hh.mmtt" format: two-digit 12-hour clock, '.', two-digit minutes, AM or PM. */
  function TimeText(d: DateTime): string {
    TwoDigits(Hour12(d)) + "." + TwoDigits(d.minute) + (if d.hour < 12 then "AM" else "PM")
  }

  // ---------------------------------------------------------------- Unix time

  /** The Unix seconds of 0001-01-01T00:00:00Z and of 9999-12-31T23:59:59Z. */
  const UnixSecondsMin: int := -62_135_596_800
  const UnixSecondsMax: int := 253_402_300_799

  /** DateTimeOffset.FromUnixTimeSeconds(seconds).DateTime: seconds outside the range of
      DateTime throw ArgumentOutOfRangeException (None here); inside it, the calendar
      conversion, which is the parameter `civil`. */
  function FromUnixTimeSeconds(seconds: int, civil: int -> DateTime): (r: Option<DateTime>)
    ensures r.Some? <==> UnixSecondsMin <= seconds <= UnixSecondsMax
    ensures r.Some? ==> r.value == civil(seconds)
  {
    if seconds < UnixSecondsMin || seconds > UnixSecondsMax then None else Some(civil(seconds))
  }
}

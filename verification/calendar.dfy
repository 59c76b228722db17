/** The part of Python's `datetime` the converters use: naive date-times in the proleptic
    Gregorian calendar between years 1 and 9999, subtraction of a `timedelta`, construction
    from (year, month, day), and `strftime("%Y-%m-%d %H:%M:%S")`.
    A date-time is identified with the number of seconds since 0001-01-01 00:00:00. */
module Calendar {
  import opened Wrappers
  import opened Text

  const MinYear := 1
  const MaxYear := 9999
  const SecondsPerDay := 86400

  datatype DateTime = DateTime(year: int, month: int, day: int, hour: int, minute: int, second: int)

  predicate IsLeap(y: int) {
    y % 4 == 0 && (y % 100 != 0 || y % 400 == 0)
  }

  function DaysInYear(y: int): int {
    if IsLeap(y) then 366 else 365
  }

  function DaysInMonth(y: int, m: int): int
    requires 1 <= m <= 12
  {
    if m == 2 then (if IsLeap(y) then 29 else 28)
    else if m == 4 || m == 6 || m == 9 || m == 11 then 30
    else 31
  }

  /** What `date(y, m, d)` accepts without raising `ValueError`. */
  predicate ValidDate(y: int, m: int, d: int) {
    MinYear <= y <= MaxYear && 1 <= m <= 12 && 1 <= d <= DaysInMonth(y, m)
  }

  /** What `datetime(...)` accepts without raising `ValueError`. */
  predicate Valid(t: DateTime) {
    ValidDate(t.year, t.month, t.day) && 0 <= t.hour < 24 && 0 <= t.minute < 60 && 0 <= t.second < 60
  }

  // ---------------------------------------------------------------- day numbers

  /** Days from 0001-01-01 to the first day of year `y`. */
  function DaysBeforeYear(y: int): nat
    requires y >= 1
  {
    if y == 1 then 0 else DaysBeforeYear(y - 1) + DaysInYear(y - 1)
  }

  /** Days from the first day of year `y` to the first day of month `m` (13 stands for the next year). */
  function DaysBeforeMonth(y: int, m: int): nat
    requires 1 <= m <= 13
  {
    if m == 1 then 0 else DaysBeforeMonth(y, m - 1) + DaysInMonth(y, m - 1)
  }

  lemma MonthsFillTheYear(y: int)
    ensures DaysBeforeMonth(y, 13) == DaysInYear(y)
  {
    var feb := DaysInMonth(y, 2);
    assert DaysBeforeMonth(y, 2) == 31;
    assert DaysBeforeMonth(y, 3) == 31 + feb;
    assert DaysBeforeMonth(y, 4) == 62 + feb;
    assert DaysBeforeMonth(y, 5) == 92 + feb;
    assert DaysBeforeMonth(y, 6) == 123 + feb;
    assert DaysBeforeMonth(y, 7) == 153 + feb;
    assert DaysBeforeMonth(y, 8) == 184 + feb;
    assert DaysBeforeMonth(y, 9) == 215 + feb;
    assert DaysBeforeMonth(y, 10) == 245 + feb;
    assert DaysBeforeMonth(y, 11) == 276 + feb;
    assert DaysBeforeMonth(y, 12) == 306 + feb;
  }

  lemma {:induction false} DaysBeforeYearMonotonic(a: int, b: int)
    requires 1 <= a <= b
    ensures DaysBeforeYear(a) + (if a < b then DaysInYear(a) else 0) <= DaysBeforeYear(b)
    decreases b - a
  {
    if a < b - 1 {
      DaysBeforeYearMonotonic(a, b - 1);
    }
  }

  lemma {:induction false} DaysBeforeMonthMonotonic(y: int, a: int, b: int)
    requires 1 <= a <= b <= 13
    ensures DaysBeforeMonth(y, a) + (if a < b then DaysInMonth(y, a) else 0) <= DaysBeforeMonth(y, b)
    decreases b - a
  {
    if a < b - 1 {
      DaysBeforeMonthMonotonic(y, a, b - 1);
    }
  }

  /** Days since 0001-01-01 (Python's `date.toordinal() - 1`). */
  function DayNumber(y: int, m: int, d: int): int
    requires y >= 1 && 1 <= m <= 12
  {
    DaysBeforeYear(y) + DaysBeforeMonth(y, m) + d - 1
  }

  /** The first second after 9999-12-31 23:59:59. */
  const EndSeconds: int := DaysBeforeYear(MaxYear + 1) * SecondsPerDay

  /** Seconds since 0001-01-01 00:00:00. */
  function ToSeconds(t: DateTime): int
    requires Valid(t)
  {
    DayNumber(t.year, t.month, t.day) * SecondsPerDay + t.hour * 3600 + t.minute * 60 + t.second
  }

  /** Every valid date-time lies in the representable range. */
  lemma ToSecondsInRange(t: DateTime)
    requires Valid(t)
    ensures 0 <= ToSeconds(t) < EndSeconds
  {
    DaysBeforeMonthMonotonic(t.year, t.month, 13);
    MonthsFillTheYear(t.year);
    DaysBeforeYearMonotonic(t.year, MaxYear + 1);
    var n := DayNumber(t.year, t.month, t.day);
    assert n + 1 <= DaysBeforeYear(MaxYear + 1);
    assert ToSeconds(t) < (n + 1) * SecondsPerDay;
  }

  // ---------------------------------------------------------------- back from day numbers

  /** The year that day `n` (counted from the first day of year `y`) falls in, and the day within it. */
  function YearOf(n: nat, y: int): (r: (int, nat))
    requires y >= 1
    ensures r.0 >= y && r.1 < DaysInYear(r.0)
    ensures DaysBeforeYear(r.0) + r.1 == DaysBeforeYear(y) + n
    decreases n
  {
    if n < DaysInYear(y) then (y, n) else YearOf(n - DaysInYear(y), y + 1)
  }

  /** The month and day of month of day `n` (counted from the first day of month `m`) of year `y`. */
  function MonthOf(y: int, n: nat, m: int): (r: (int, int))
    requires 1 <= m <= 12 && DaysBeforeMonth(y, m) + n < DaysInYear(y)
    ensures m <= r.0 <= 12 && 1 <= r.1 <= DaysInMonth(y, r.0)
    ensures DaysBeforeMonth(y, r.0) + r.1 - 1 == DaysBeforeMonth(y, m) + n
    decreases 12 - m
  {
    if n < DaysInMonth(y, m) then
      (m, n + 1)
    else
      MonthsFillTheYear(y);
      MonthOf(y, n - DaysInMonth(y, m), m + 1)
  }

  /** The date-time `s` seconds after 0001-01-01 00:00:00. */
  function FromSeconds(s: int): (t: DateTime)
    requires 0 <= s < EndSeconds
    ensures Valid(t) && ToSeconds(t) == s
  {
    var days := s / SecondsPerDay;
    var rem := s % SecondsPerDay;
    var (y, doy) := YearOf(days, 1);
    assert y <= MaxYear by {
      if y > MaxYear {
        DaysBeforeYearMonotonic(MaxYear + 1, y);
      }
    }
    var (m, d) := MonthOf(y, doy, 1);
    var t := DateTime(y, m, d, rem / 3600, rem % 3600 / 60, rem % 60);
    assert DayNumber(y, m, d) == days;
    t
  }

  lemma {:induction false} YearOfUnique(n: nat, y: int, y': int, k: nat)
    requires 1 <= y <= y' && k < DaysInYear(y') && DaysBeforeYear(y') + k == DaysBeforeYear(y) + n
    ensures YearOf(n, y) == (y', k)
    decreases n
  {
    if y' > y {
      DaysBeforeYearMonotonic(y + 1, y');
      YearOfUnique(n - DaysInYear(y), y + 1, y', k);
    }
  }

  lemma {:induction false} MonthOfUnique(y: int, n: nat, m: int, m': int, d: int)
    requires 1 <= m <= m' <= 12 && 1 <= d <= DaysInMonth(y, m')
    requires DaysBeforeMonth(y, m) + n < DaysInYear(y)
    requires DaysBeforeMonth(y, m') + d - 1 == DaysBeforeMonth(y, m) + n
    ensures MonthOf(y, n, m) == (m', d)
    decreases 12 - m
  {
    if m' > m {
      DaysBeforeMonthMonotonic(y, m + 1, m');
      MonthsFillTheYear(y);
      MonthOfUnique(y, n - DaysInMonth(y, m), m + 1, m', d);
    }
  }

  /** Seconds since year 1 and date-times are in one-to-one correspondence: converting a
      valid date-time to seconds and back gives it again. */
  lemma FromToSeconds(t: DateTime)
    requires Valid(t)
    ensures 0 <= ToSeconds(t) < EndSeconds && FromSeconds(ToSeconds(t)) == t
  {
    ToSecondsInRange(t);
    var s := ToSeconds(t);
    var secs := t.hour * 3600 + t.minute * 60 + t.second;
    var n := DayNumber(t.year, t.month, t.day);
    assert s / SecondsPerDay == n && s % SecondsPerDay == secs;
    DaysBeforeMonthMonotonic(t.year, t.month, 13);
    MonthsFillTheYear(t.year);
    YearOfUnique(n, 1, t.year, DaysBeforeMonth(t.year, t.month) + t.day - 1);
    MonthOfUnique(t.year, DaysBeforeMonth(t.year, t.month) + t.day - 1, 1, t.month, t.day);
  }

  /** Two valid date-times with the same second count are equal. */
  lemma ToSecondsInjective(a: DateTime, b: DateTime)
    requires Valid(a) && Valid(b) && ToSeconds(a) == ToSeconds(b)
    ensures a == b
  {
    FromToSeconds(a);
    FromToSeconds(b);
  }

  // ---------------------------------------------------------------- arithmetic

  /** `t - timedelta(seconds=delta)`; `OverflowError` when the result would fall before year 1. */
  function Minus(t: DateTime, delta: nat): (r: Result<DateTime>)
    requires Valid(t)
    ensures r.Ok? ==> Valid(r.value) && ToSeconds(r.value) == ToSeconds(t) - delta
    ensures r.Err? ==> r.error == OverflowError && delta > ToSeconds(t)
  {
    ToSecondsInRange(t);
    if delta > ToSeconds(t) then Err(OverflowError) else Ok(FromSeconds(ToSeconds(t) - delta))
  }

  /** Whether a value fits the C `int` that `datetime` parses each argument into. */
  predicate IsCInt(n: int) {
    -0x8000_0000 <= n < 0x8000_0000
  }

  /** `datetime(y, m, d)`: midnight of that day. An argument that does not fit a C `int`
      raises `OverflowError` while the arguments are read; a date that does not exist
      raises `ValueError`. */
  function Midnight(y: int, m: int, d: int): (r: Result<DateTime>)
    ensures r.Ok? <==> ValidDate(y, m, d)
    ensures r.Ok? ==> Valid(r.value) && r.value == DateTime(y, m, d, 0, 0, 0)
    ensures r.Err? ==> (r.error == OverflowError <==> !(IsCInt(y) && IsCInt(m) && IsCInt(d)))
    ensures r.Err? ==> r.error == OverflowError || r.error == ValueError
  {
    if !(IsCInt(y) && IsCInt(m) && IsCInt(d)) then Err(OverflowError)
    else if ValidDate(y, m, d) then Ok(DateTime(y, m, d, 0, 0, 0))
    else Err(ValueError)
  }

  // ---------------------------------------------------------------- formatting

  /** `t.strftime("%Y-%m-%d %H:%M:%S")`. */
  function Format(t: DateTime): (s: string)
    requires Valid(t)
    ensures |s| == 19
  {
    Pad(t.year, 4) + "-" + Pad(t.month, 2) + "-" + Pad(t.day, 2) + " "
    + Pad(t.hour, 2) + ":" + Pad(t.minute, 2) + ":" + Pad(t.second, 2)
  }

  /** The reading of a "%Y-%m-%d %H:%M:%S" string (`datetime.strptime` with that format). */
  function Parse(s: string): Option<DateTime> {
    if |s| == 19 && s[4] == '-' && s[7] == '-' && s[10] == ' ' && s[13] == ':' && s[16] == ':'
       && AllDigits(s[0..4]) && AllDigits(s[5..7]) && AllDigits(s[8..10])
       && AllDigits(s[11..13]) && AllDigits(s[14..16]) && AllDigits(s[17..19])
    then
      var t := DateTime(Value(s[0..4]), Value(s[5..7]), Value(s[8..10]),
                        Value(s[11..13]), Value(s[14..16]), Value(s[17..19]));
      if Valid(t) then Some(t) else None
    else
      None
  }

  /** Formatting loses nothing: the formatted text reads back as the same date-time. */
  lemma ParseFormat(t: DateTime)
    requires Valid(t)
    ensures Parse(Format(t)) == Some(t)
  {
    assert Pow10(2) == 100 && Pow10(4) == 10000;
    FieldsOfStamp(Pad(t.year, 4), Pad(t.month, 2), Pad(t.day, 2), Pad(t.hour, 2), Pad(t.minute, 2), Pad(t.second, 2));
  }

  /** Where the six fields of a stamp sit. */
  lemma FieldsOfStamp(y: string, mo: string, d: string, h: string, mi: string, se: string)
    requires |y| == 4 && |mo| == 2 && |d| == 2 && |h| == 2 && |mi| == 2 && |se| == 2
    ensures var s := y + "-" + mo + "-" + d + " " + h + ":" + mi + ":" + se;
      && |s| == 19 && s[4] == '-' && s[7] == '-' && s[10] == ' ' && s[13] == ':' && s[16] == ':'
      && s[0..4] == y && s[5..7] == mo && s[8..10] == d && s[11..13] == h && s[14..16] == mi && s[17..19] == se
  {
    var s := y + "-" + mo + "-" + d + " " + h + ":" + mi + ":" + se;
    assert s[0..4] == y;
    assert s[5..7] == mo;
    assert s[8..10] == d;
    assert s[11..13] == h;
    assert s[14..16] == mi;
    assert s[17..19] == se;
  }
}

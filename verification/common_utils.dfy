/** `src/job/common/utils.py`: `DateConverter` turns a site's relative date ("hace 3 horas",
    "ayer", "15 marzo") into a date-time, `SalaryConverter` turns a salary text
    ("$15,000 mensual") into a base amount and a commission flag.

    Both classes only store values computed once in their constructors, so each is modelled
    as functions of the constructor's arguments. The clock reading `datetime.now()` is the
    parameter `now`; the month table `MONTHS` and the divisor `DECIMAL_PLACES`, which the
    file imports from a constants module outside this model, are parameters too. */
module CommonUtils {
  import opened Wrappers
  import opened Text
  import opened Calendar

  // ================================================================ DateConverter

  /** `DateConverter(raw).raw_date`. */
  function RawDate(raw: string): string { Lower(raw) }

  /** `DateConverter(raw)._digit`: every digit of the lower-cased input, in order. */
  function Digit(raw: string): (ds: string)
    ensures AllDigits(ds)
    ensures ds == Digits(raw)
  {
    DigitsOfLower(raw);
    Digits(RawDate(raw))
  }

  predicate IsYesterday(s: string) { Contains(s, "ayer") }

  predicate IsHour(s: string) { Contains(s, "horas") || Contains(s, "hora") }

  predicate IsMinutes(s: string) { Contains(s, "minutos") || Contains(s, "minuto") }

  predicate IsDays(s: string) { Contains(s, "d\U{ed}as") }

  const MinuteSeconds := 60
  const HourSeconds := 3600
  const DaySeconds := 86400

  /** `now - timedelta(<unit>=int(digit))`: `ValueError` when there are no digits or more
      than `int` converts, `OverflowError` when the result would fall before year 1. */
  function Ago(digit: string, now: DateTime, unitSeconds: nat): (r: Result<DateTime>)
    requires AllDigits(digit) && Valid(now)
    ensures digit == [] || |digit| > MaxIntDigits ==> r == Err(ValueError)
    ensures r.Ok? ==>
      && digit != [] && |digit| <= MaxIntDigits && Valid(r.value)
      && ToSeconds(r.value) == ToSeconds(now) - Value(digit) * unitSeconds
    ensures r.Err? && digit != [] && |digit| <= MaxIntDigits ==>
      r.error == OverflowError && Value(digit) * unitSeconds > ToSeconds(now)
  {
    match ParseInt(digit)
    case Err(e) => Err(e)
    case Ok(n) => Minus(now, n * unitSeconds)
  }

  /** `_convert_from_yesterday`: exactly one day before `now`. */
  function FromYesterday(now: DateTime): (r: Result<DateTime>)
    requires Valid(now)
  {
    Minus(now, DaySeconds)
  }

  /** `[el for el in words if el in months]`. */
  function MonthTokens(words: seq<string>, months: map<string, int>): (names: seq<string>)
    ensures forall i :: 0 <= i < |names| ==> names[i] in months && names[i] in words
  {
    if words == [] then []
    else (if words[0] in months then [words[0]] else []) + MonthTokens(words[1..], months)
  }

  /** `_default`: the first whitespace-separated token that is a key of `months` gives the
      month, the digits give the day, the year is `now`'s; the time is midnight.
      With no such token the `[0]` raises `IndexError` (the `if not month_name` guard after it
      can never fire, since a token is never empty); with no digits, or more than `int`
      converts, `int` raises `ValueError`; a day too large for a C `int` makes `datetime` raise `OverflowError`,
      and a month or day out of range makes it raise `ValueError`. */
  function MonthDefault(s: string, now: DateTime, months: map<string, int>): (r: Result<DateTime>)
    requires Valid(now)
    ensures r.Ok? ==> Valid(r.value) && r.value.year == now.year
    ensures r.Ok? ==> r.value.hour == 0 && r.value.minute == 0 && r.value.second == 0
  {
    var names := MonthTokens(Split(s), months);
    if names == [] then
      Err(IndexError)
    else
      var monthNumber := months[names[0]];
      match ParseInt(Digits(s))
      case Err(e) => Err(e)
      case Ok(day) => Midnight(now.year, monthNumber, day)
  }

  /** `DateConverter(raw).convert()` before the final `strftime`: the first marker found,
      in the order "ayer", "hora(s)", "días", "minuto(s)", picks the branch; otherwise the
      month-name default. */
  function ConvertDate(raw: string, now: DateTime, months: map<string, int>): (r: Result<DateTime>)
    requires Valid(now)
    ensures r.Ok? ==> Valid(r.value)
    ensures var s := RawDate(raw);
      (IsYesterday(s) || IsHour(s) || IsDays(s) || IsMinutes(s)) && r.Ok? ==> ToSeconds(r.value) <= ToSeconds(now)
    ensures var s := RawDate(raw);
      !(IsYesterday(s) || IsHour(s) || IsDays(s) || IsMinutes(s)) && r.Ok? ==>
        r.value.year == now.year && r.value.hour == 0 && r.value.minute == 0 && r.value.second == 0
  {
    var s := RawDate(raw);
    var digit := Digit(raw);
    if IsYesterday(s) then FromYesterday(now)
    else if IsHour(s) then Ago(digit, now, HourSeconds)
    else if IsDays(s) then Ago(digit, now, DaySeconds)
    else if IsMinutes(s) then Ago(digit, now, MinuteSeconds)
    else MonthDefault(s, now, months)
  }

  /** "ayer" beats every other marker and every digit: the result is exactly one day before
      `now` (or `OverflowError` on the first day of year 1), whatever else the text says. */
  lemma YesterdayWins(raw: string, now: DateTime, months: map<string, int>)
    requires Valid(now) && IsYesterday(RawDate(raw))
    ensures var r := ConvertDate(raw, now, months);
      && (r.Ok? <==> ToSeconds(now) >= DaySeconds)
      && (r.Ok? ==> ToSeconds(r.value) == ToSeconds(now) - DaySeconds)
      && (r.Err? ==> r.error == OverflowError)
  {
  }

  /** Without "ayer", "hora" or "horas" selects the hour branch: `now` minus as many hours as
      the digits say, `ValueError` when there are none. */
  lemma HourBranch(raw: string, now: DateTime, months: map<string, int>)
    requires Valid(now) && !IsYesterday(RawDate(raw)) && IsHour(RawDate(raw))
    ensures var r := ConvertDate(raw, now, months);
      && (Digits(raw) == [] || |Digits(raw)| > MaxIntDigits ==> r == Err(ValueError))
      && (r.Ok? ==> ToSeconds(r.value) == ToSeconds(now) - Value(Digits(raw)) * HourSeconds)
      && (Digits(raw) != [] && |Digits(raw)| <= MaxIntDigits && Value(Digits(raw)) * HourSeconds <= ToSeconds(now) ==> r.Ok?)
  {
  }

  /** Without "ayer" or "hora", "días" selects the day branch. */
  lemma DaysBranch(raw: string, now: DateTime, months: map<string, int>)
    requires Valid(now)
    requires !IsYesterday(RawDate(raw)) && !IsHour(RawDate(raw)) && IsDays(RawDate(raw))
    ensures var r := ConvertDate(raw, now, months);
      && (Digits(raw) == [] || |Digits(raw)| > MaxIntDigits ==> r == Err(ValueError))
      && (r.Ok? ==> ToSeconds(r.value) == ToSeconds(now) - Value(Digits(raw)) * DaySeconds)
      && (Digits(raw) != [] && |Digits(raw)| <= MaxIntDigits && Value(Digits(raw)) * DaySeconds <= ToSeconds(now) ==> r.Ok?)
  {
  }

  /** Only when none of "ayer", "hora", "días" occurs does "minuto(s)" select the minute branch. */
  lemma MinutesBranch(raw: string, now: DateTime, months: map<string, int>)
    requires Valid(now)
    requires !IsYesterday(RawDate(raw)) && !IsHour(RawDate(raw)) && !IsDays(RawDate(raw))
    requires IsMinutes(RawDate(raw))
    ensures var r := ConvertDate(raw, now, months);
      && (Digits(raw) == [] || |Digits(raw)| > MaxIntDigits ==> r == Err(ValueError))
      && (r.Ok? ==> ToSeconds(r.value) == ToSeconds(now) - Value(Digits(raw)) * MinuteSeconds)
      && (Digits(raw) != [] && |Digits(raw)| <= MaxIntDigits && Value(Digits(raw)) * MinuteSeconds <= ToSeconds(now) ==> r.Ok?)
  {
  }

  /** The first month token of a text, if any. */
  lemma {:induction false} MonthTokensFirst(words: seq<string>, months: map<string, int>, i: nat)
    requires i < |words| && words[i] in months
    requires forall j :: 0 <= j < i ==> words[j] !in months
    ensures MonthTokens(words, months) != [] && MonthTokens(words, months)[0] == words[i]
  {
    if i > 0 {
      MonthTokensFirst(words[1..], months, i - 1);
    }
  }

  lemma {:induction false} MonthTokensEmpty(words: seq<string>, months: map<string, int>)
    requires forall j :: 0 <= j < |words| ==> words[j] !in months
    ensures MonthTokens(words, months) == []
  {
    if words != [] {
      MonthTokensEmpty(words[1..], months);
    }
  }

  /** With no marker at all: no month token gives `IndexError`; otherwise the first month
      token `Split(s)[i]` and the digits give midnight of (year of `now`, month, day), with
      `ValueError` when there are no digits, more digits than `int` converts, or the day does
      not exist in that month, and `OverflowError` when the day exceeds a C `int`. */
  lemma MonthDefaultBranch(raw: string, now: DateTime, months: map<string, int>, i: nat)
    requires Valid(now)
    requires var s := RawDate(raw); !IsYesterday(s) && !IsHour(s) && !IsDays(s) && !IsMinutes(s)
    requires var words := Split(RawDate(raw));
      i <= |words| && (forall j :: 0 <= j < i ==> words[j] !in months) && (i < |words| ==> words[i] in months)
    ensures var r := ConvertDate(raw, now, months);
      var words := Split(RawDate(raw));
      && (i == |words| ==> r == Err(IndexError))
      && (i < |words| && (Digits(raw) == [] || |Digits(raw)| > MaxIntDigits) ==> r == Err(ValueError))
      && (i < |words| && Digits(raw) != [] && |Digits(raw)| <= MaxIntDigits ==>
            r == Midnight(now.year, months[words[i]], Value(Digits(raw))))
  {
    var s := RawDate(raw);
    var words := Split(s);
    DigitsOfLower(raw);
    assert ConvertDate(raw, now, months) == MonthDefault(s, now, months);
    if i < |words| {
      MonthTokensFirst(words, months, i);
    } else {
      MonthTokensEmpty(words, months);
    }
  }

  /** With no marker, a month word and a day whose digits exceed a C `int` (as when a year
      and a time follow the day, "25 diciembre 2024 18:45"), `datetime` raises
      `OverflowError`. */
  lemma HugeDayOverflows(raw: string, now: DateTime, months: map<string, int>, i: nat)
    requires Valid(now)
    requires var s := RawDate(raw); !IsYesterday(s) && !IsHour(s) && !IsDays(s) && !IsMinutes(s)
    requires var words := Split(RawDate(raw));
      i < |words| && (forall j :: 0 <= j < i ==> words[j] !in months) && words[i] in months
    requires Digits(raw) != [] && |Digits(raw)| <= MaxIntDigits && Value(Digits(raw)) >= 0x8000_0000
    ensures ConvertDate(raw, now, months) == Err(OverflowError)
  {
    MonthDefaultBranch(raw, now, months, i);
  }

  // ================================================================ SalaryConverter

  /** `{"base": ..., "has_commission": ...}`: exactly these two keys. */
  datatype Salary = Salary(base: real, hasCommission: bool)

  /** `SalaryConverter(raw).raw_salary`: `raw or ""`, stripped and lower-cased. */
  function RawSalary(raw: Option<string>): string {
    var text := if raw.Some? then raw.value else "";
    Lower(Strip(text))
  }

  predicate IsMonthly(s: string) { Contains(s, "mensual") }

  predicate IsHourly(s: string) { Contains(s, "horas") }

  predicate HasCommission(s: string) { Contains(s, "comisi\U{f3}n") }

  /** `float(digits) / DECIMAL_PLACES`: `ValueError` without digits, `ZeroDivisionError`
      when the divisor is zero. */
  function DigitsOver(s: string, decimalPlaces: real): (r: Result<real>)
    ensures Digits(s) == [] ==> r == Err(ValueError)
    ensures r.Ok? ==> decimalPlaces != 0.0 && r.value == Value(Digits(s)) as real / decimalPlaces
    ensures Digits(s) != [] && decimalPlaces != 0.0 ==> r.Ok?
  {
    var ds := Digits(s);
    if ds == [] then Err(ValueError)
    else if decimalPlaces == 0.0 then Err(ZeroDivisionError)
    else Ok(Value(ds) as real / decimalPlaces)
  }

  /** `_convert_from_hourly`: `self._get_digit() / DECIMAL_PLACES` divides a `str` by a
      number, which raises `TypeError` whatever the text and the divisor. */
  function FromHourly(s: string, decimalPlaces: real): Result<real> {
    Err(TypeError)
  }

  /** `SalaryConverter(raw).convert()`. */
  function ConvertSalary(raw: Option<string>, decimalPlaces: real): (r: Result<Salary>)
    ensures r.Ok? ==> r.value.hasCommission == HasCommission(RawSalary(raw))
    ensures r.Ok? && IsMonthly(RawSalary(raw)) ==>
      decimalPlaces != 0.0 && r.value.base == Value(Digits(RawSalary(raw))) as real / decimalPlaces
    ensures r.Ok? && !IsMonthly(RawSalary(raw)) ==> r.value.base == 0.0
    ensures !IsMonthly(RawSalary(raw)) && !IsHourly(RawSalary(raw)) ==>
      r == Ok(Salary(0.0, HasCommission(RawSalary(raw))))
  {
    var s := RawSalary(raw);
    var value :=
      if IsMonthly(s) then DigitsOver(s, decimalPlaces)
      else if IsHourly(s) then FromHourly(s, decimalPlaces)
      else Ok(0.0);
    match value
    case Err(e) => Err(e)
    case Ok(base) => Ok(Salary(base, HasCommission(s)))
  }

  /** A text with neither "mensual" nor "horas" always succeeds, with base 0.0 and the
      commission flag of "comisión". */
  lemma DefaultSalary(raw: Option<string>, decimalPlaces: real)
    requires !IsMonthly(RawSalary(raw)) && !IsHourly(RawSalary(raw))
    ensures ConvertSalary(raw, decimalPlaces) == Ok(Salary(0.0, HasCommission(RawSalary(raw))))
  {
  }

  /** A missing, empty or blank salary text is worth nothing and carries no commission. */
  lemma BlankSalary(raw: Option<string>, decimalPlaces: real)
    requires raw.None? || AllSpace(raw.value)
    ensures ConvertSalary(raw, decimalPlaces) == Ok(Salary(0.0, false))
  {
    StripEmpty(if raw.Some? then raw.value else "");
    assert RawSalary(raw) == [];
  }

  /** "mensual" is checked before "horas": a text with both is read as monthly, and without
      digits the monthly branch raises `ValueError`. */
  lemma MonthlyBeforeHourly(raw: Option<string>, decimalPlaces: real)
    requires IsMonthly(RawSalary(raw))
    ensures var r := ConvertSalary(raw, decimalPlaces);
      && (Digits(RawSalary(raw)) == [] ==> r == Err(ValueError))
      && (Digits(RawSalary(raw)) != [] && decimalPlaces != 0.0 ==> r.Ok?)
  {
  }

  /** The hourly branch ("horas" without "mensual") never returns: it always raises `TypeError`. */
  lemma HourlySalaryAlwaysRaises(raw: Option<string>, decimalPlaces: real)
    requires !IsMonthly(RawSalary(raw)) && IsHourly(RawSalary(raw))
    ensures ConvertSalary(raw, decimalPlaces) == Err(TypeError)
  {
  }

  /** The evidently intended `convert()`: the hourly branch reads the digits the way the
      monthly branch does, `float(digits) / DECIMAL_PLACES`. */
  function ConvertSalaryFixed(raw: Option<string>, decimalPlaces: real): (r: Result<Salary>)
    ensures r.Ok? ==> r.value.hasCommission == HasCommission(RawSalary(raw))
    ensures r.Ok? && (IsMonthly(RawSalary(raw)) || IsHourly(RawSalary(raw))) ==>
      decimalPlaces != 0.0 && r.value.base == Value(Digits(RawSalary(raw))) as real / decimalPlaces
    ensures IsMonthly(RawSalary(raw)) || IsHourly(RawSalary(raw)) ==>
      (r.Ok? <==> Digits(RawSalary(raw)) != [] && decimalPlaces != 0.0)
    ensures !IsMonthly(RawSalary(raw)) ==> (IsHourly(RawSalary(raw)) || ConvertSalary(raw, decimalPlaces) == r)
  {
    var s := RawSalary(raw);
    var value := if IsMonthly(s) || IsHourly(s) then DigitsOver(s, decimalPlaces) else Ok(0.0);
    match value
    case Err(e) => Err(e)
    case Ok(base) => Ok(Salary(base, HasCommission(s)))
  }

  // ---------------------------------------------------------------- worked examples
  // Each example text is a parameter fixed by a precondition, so that the verifier does not
  // unfold the recursive text functions on a literal.

  /** "hace 1 día 2": every digit, in order, makes up the magnitude "12". */
  lemma MagnitudeExample(raw: string)
    requires raw == "hace 1 d\U{ed}a 2"
    ensures Digit(raw) == "12" && Value(Digit(raw)) == 12
  {
    assert raw == ("hace " + "1" + " d\U{ed}a ") + ("" + "2" + "");
    DigitsAround("hace ", "1", " d\U{ed}a ");
    DigitsAround("", "2", "");
    DigitsOfConcat("hace " + "1" + " d\U{ed}a ", "" + "2" + "");
    assert "1" + "2" == "12";
    assert "12"[..1] == "1";
  }

  lemma HourlyText(raw: string)
    requires raw == "$20 por horas"
    ensures RawSalary(Some(raw)) == raw
    ensures !IsMonthly(raw) && IsHourly(raw) && !HasCommission(raw)
    ensures Digits(raw) == "20" && Value("20") == 20
  {
    StripLowerKeeps(raw);
    HourlyMarkers(raw);
    HourlyDigits(raw);
  }

  lemma HourlyMarkers(raw: string)
    requires raw == "$20 por horas"
    ensures !IsMonthly(raw) && IsHourly(raw) && !HasCommission(raw)
  {
    assert 'm' !in raw && 'c' !in raw;
    MissingCharRulesOut(raw, "mensual", 0);
    MissingCharRulesOut(raw, "comisi\U{f3}n", 0);
    assert raw[8..13] == "horas";
    ContainsAt(raw, "horas", 8);
  }

  lemma HourlyDigits(raw: string)
    requires raw == "$20 por horas"
    ensures Digits(raw) == "20"
  {
    assert raw == "$" + "20" + " por horas";
    DigitsAround("$", "20", " por horas");
  }

  /** A text already stripped and lower-case is its own `raw_salary`. */
  lemma StripLowerKeeps(raw: string)
    requires raw != [] && !IsSpace(raw[0]) && !IsSpace(raw[|raw| - 1])
    requires forall i :: 0 <= i < |raw| ==> !IsUpper(raw[i])
    ensures RawSalary(Some(raw)) == raw
  {
    assert TrimStart(raw) == raw;
    assert TrimEnd(raw) == raw;
  }

  /** "$20 por horas" as written: `TypeError`, with no salary at all. */
  lemma TwentyPerHourAsWritten(raw: string)
    requires raw == "$20 por horas"
    ensures ConvertSalary(Some(raw), 100.0) == Err(TypeError)
  {
    HourlyText(raw);
  }

  /** "$20 por horas" as intended, with two decimal places: a base of 0.2 and no commission. */
  lemma TwentyPerHourFixed(raw: string)
    requires raw == "$20 por horas"
    ensures ConvertSalaryFixed(Some(raw), 100.0) == Ok(Salary(0.2, false))
  {
    HourlyText(raw);
  }

  /** "$20 por hora más comisión": the singular "hora" is not the hourly marker, so the
      text takes the default branch: base 0.0, with commission. */
  lemma HourSingularWithCommission(raw: string)
    requires raw == "$20 por hora m\U{e1}s comisi\U{f3}n"
    ensures ConvertSalary(Some(raw), 100.0) == Ok(Salary(0.0, true))
  {
    StripLowerKeeps(raw);
    SingularHourMarkers(raw);
  }

  lemma SingularHourMarkers(raw: string)
    requires raw == "$20 por hora m\U{e1}s comisi\U{f3}n"
    ensures !IsMonthly(raw) && !IsHourly(raw) && HasCommission(raw)
  {
    SingularHourNotMonthly(raw);
    SingularHourIsNotHoras(raw);
    SingularHourCommission(raw);
  }

  lemma SingularHourNotMonthly(raw: string)
    requires raw == "$20 por hora m\U{e1}s comisi\U{f3}n"
    ensures !IsMonthly(raw)
  {
    assert 'e' !in raw;
    MissingCharRulesOut(raw, "mensual", 1);
  }

  lemma SingularHourCommission(raw: string)
    requires raw == "$20 por hora m\U{e1}s comisi\U{f3}n"
    ensures HasCommission(raw)
  {
    assert raw == "$20 por hora m\U{e1}s " + "comisi\U{f3}n" + "";
    ContainsBetween("$20 por hora m\U{e1}s ", "comisi\U{f3}n", "");
  }

  lemma SingularHourIsNotHoras(raw: string)
    requires raw == "$20 por hora m\U{e1}s comisi\U{f3}n"
    ensures !Contains(raw, "horas")
  {
    var a, b := "$20 por ", "ora m\U{e1}s comisi\U{f3}n";
    assert raw == a + ['h'] + b;
    assert 'h' !in a && 'h' !in b;
    OnlyBetween(a, 'h', b);
    assert raw[8..13] == "hora ";
    FirstCharOnlyAt(raw, "horas", 8);
  }

  lemma MonthlyText(raw: string)
    requires raw == "$15,000 mensual"
    ensures RawSalary(Some(raw)) == raw
    ensures IsMonthly(raw) && !HasCommission(raw)
    ensures Digits(raw) == "15000" && Value("15000") == 15000
  {
    StripLowerKeeps(raw);
    MonthlyMarkers(raw);
    MonthlyDigits(raw);
    assert "15000"[..4] == "1500" && "1500"[..3] == "150" && "150"[..2] == "15" && "15"[..1] == "1";
  }

  lemma MonthlyMarkers(raw: string)
    requires raw == "$15,000 mensual"
    ensures IsMonthly(raw) && !HasCommission(raw)
  {
    assert 'c' !in raw;
    MissingCharRulesOut(raw, "comisi\U{f3}n", 0);
    assert raw[8..15] == "mensual";
    ContainsAt(raw, "mensual", 8);
  }

  lemma MonthlyDigits(raw: string)
    requires raw == "$15,000 mensual"
    ensures Digits(raw) == "15000"
  {
    var head, tail := raw[..3], raw[3..];
    assert raw == head + tail;
    DollarDigits(head);
    ThousandsDigits(tail);
    DigitsOfConcat(head, tail);
  }

  lemma DollarDigits(head: string)
    requires head == "$15"
    ensures Digits(head) == "15"
  {
    assert head == "$" + "15" + "";
    DigitsAround("$", "15", "");
  }

  lemma ThousandsDigits(tail: string)
    requires tail == ",000 mensual"
    ensures Digits(tail) == "000"
  {
    assert tail == "," + "000" + " mensual";
    DigitsAround(",", "000", " mensual");
  }

  /** "$15,000 mensual" with two decimal places: a base of 150.0 and no commission. */
  lemma MonthlyExample(raw: string)
    requires raw == "$15,000 mensual"
    ensures ConvertSalary(Some(raw), 100.0) == Ok(Salary(150.0, false))
  {
    MonthlyText(raw);
  }
}

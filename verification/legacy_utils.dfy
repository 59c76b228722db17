/** `src/utils.py`: the older `DateConverter`, which owns the Spanish month table and the
    output format. It knows "ayer", "horas" and a days marker, has no minutes branch, and
    returns the date already formatted as "%Y-%m-%d %H:%M:%S".

    Its days marker is the UTF-8 bytes of "días" read as Latin-1, "dÃ­as": its third
    character is the capital letter U+00C3, and the text is lower-cased before the marker is
    looked for, so that branch can never be taken. `Convert` models the file as written;
    `ConvertFixed` uses "días", as the newer converter does. */
module LegacyUtils {
  import opened Wrappers
  import opened Text
  import opened Calendar
  import CommonUtils

  /** `MONTHS`: Spanish month names to month numbers. */
  const Months: map<string, int> := map[
    "enero" := 1, "febrero" := 2, "marzo" := 3, "abril" := 4, "mayo" := 5, "junio" := 6,
    "julio" := 7, "agosto" := 8, "septiembre" := 9, "octubre" := 10, "noviembre" := 11,
    "diciembre" := 12]

  /** The month names in calendar order. */
  const MonthNames: seq<string> := [
    "enero", "febrero", "marzo", "abril", "mayo", "junio",
    "julio", "agosto", "septiembre", "octubre", "noviembre", "diciembre"]

  /** The days marker as the file spells it: "d", U+00C3, U+00AD, "as". */
  const MangledDays := "d\U{c3}\U{ad}as"

  /** `MONTHS` numbers the twelve months one-to-one: the n-th name maps to n ... */
  lemma MonthsNumberTheYear()
    ensures forall i :: 0 <= i < 12 ==> MonthNames[i] in Months && Months[MonthNames[i]] == i + 1
  {
  }

  /** ... and every key of `MONTHS` is the name of the month it numbers. */
  lemma MonthsAreNamed()
    ensures forall name :: name in Months ==> 1 <= Months[name] <= 12 && MonthNames[Months[name] - 1] == name
  {
    forall name | name in Months
      ensures 1 <= Months[name] <= 12 && MonthNames[Months[name] - 1] == name
    {
    }
  }

  predicate IsHour(s: string) { Contains(s, "horas") }

  /** The decision of `convert()` with the days marker as a parameter. */
  function ConvertWith(daysMarker: string, raw: string, now: DateTime): (r: Result<DateTime>)
    requires Valid(now)
    ensures r.Ok? ==> Valid(r.value)
  {
    var s := CommonUtils.RawDate(raw);
    var digit := CommonUtils.Digit(raw);
    if CommonUtils.IsYesterday(s) then CommonUtils.FromYesterday(now)
    else if IsHour(s) then CommonUtils.Ago(digit, now, CommonUtils.HourSeconds)
    else if Contains(s, daysMarker) then CommonUtils.Ago(digit, now, CommonUtils.DaySeconds)
    else CommonUtils.MonthDefault(s, now, Months)
  }

  /** `DateConverter(raw).convert()` as written: the chosen date-time in `DEFAULT_FORMAT`. */
  function Convert(raw: string, now: DateTime): (r: Result<string>)
    requires Valid(now)
    ensures r.Ok? <==> ConvertWith(MangledDays, raw, now).Ok?
    ensures r.Ok? ==> Parse(r.value) == Some(ConvertWith(MangledDays, raw, now).value)
    ensures r.Err? ==> r.error == ConvertWith(MangledDays, raw, now).error
  {
    match ConvertWith(MangledDays, raw, now)
    case Err(e) => Err(e)
    case Ok(t) => ParseFormat(t); Ok(Format(t))
  }

  /** The evidently intended converter: the days marker is "días". */
  function ConvertFixed(raw: string, now: DateTime): (r: Result<string>)
    requires Valid(now)
    ensures r.Ok? <==> ConvertWith("d\U{ed}as", raw, now).Ok?
    ensures r.Ok? ==> Parse(r.value) == Some(ConvertWith("d\U{ed}as", raw, now).value)
    ensures r.Err? ==> r.error == ConvertWith("d\U{ed}as", raw, now).error
  {
    match ConvertWith("d\U{ed}as", raw, now)
    case Err(e) => Err(e)
    case Ok(t) => ParseFormat(t); Ok(Format(t))
  }

  /** As written, the days branch is dead: for every input the converter behaves as one that
      only knows "ayer", "horas" and the month-name default. */
  lemma DaysBranchUnreachable(raw: string, now: DateTime)
    requires Valid(now)
    ensures var s := CommonUtils.RawDate(raw);
      ConvertWith(MangledDays, raw, now) ==
        if CommonUtils.IsYesterday(s) then CommonUtils.FromYesterday(now)
        else if IsHour(s) then CommonUtils.Ago(Digits(raw), now, CommonUtils.HourSeconds)
        else CommonUtils.MonthDefault(s, now, Months)
  {
    assert IsUpper(MangledDays[1]);
    LowerNeverContainsUpper(raw, MangledDays, 1);
  }

  /** With the intended marker, a text with "días" and without "ayer" or "horas" is read as
      that many days before `now`. */
  lemma FixedDaysBranch(raw: string, now: DateTime)
    requires Valid(now)
    requires var s := CommonUtils.RawDate(raw);
      !CommonUtils.IsYesterday(s) && !IsHour(s) && CommonUtils.IsDays(s)
    ensures var r := ConvertWith("d\U{ed}as", raw, now);
      && (Digits(raw) == [] || |Digits(raw)| > MaxIntDigits ==> r == Err(ValueError))
      && (r.Ok? ==> ToSeconds(r.value) == ToSeconds(now) - Value(Digits(raw)) * CommonUtils.DaySeconds)
      && (Digits(raw) != [] && |Digits(raw)| <= MaxIntDigits && Value(Digits(raw)) * CommonUtils.DaySeconds <= ToSeconds(now) ==> r.Ok?)
  {
  }

  /** A text none of whose words is a month name, and without any marker the file as written
      recognises, raises `IndexError` in the default branch. */
  lemma NoMonthNameRaises(raw: string, now: DateTime)
    requires Valid(now)
    requires var s := CommonUtils.RawDate(raw); !CommonUtils.IsYesterday(s) && !IsHour(s)
    requires forall j :: 0 <= j < |Split(CommonUtils.RawDate(raw))| ==> Split(CommonUtils.RawDate(raw))[j] !in Months
    ensures Convert(raw, now) == Err(IndexError)
  {
    var s := CommonUtils.RawDate(raw);
    CommonUtils.MonthTokensEmpty(Split(s), Months);
    assert CommonUtils.MonthDefault(s, now, Months) == Err(IndexError);
    DaysBranchUnreachable(raw, now);
    assert ConvertWith(MangledDays, raw, now) == Err(IndexError);
  }

  /** A text missing a letter of every month name has no month-name word, so without a
      marker it raises `IndexError` too. */
  lemma NoMonthLetterRaises(raw: string, now: DateTime)
    requires Valid(now)
    requires var s := CommonUtils.RawDate(raw); !CommonUtils.IsYesterday(s) && !IsHour(s)
    requires forall name :: name in Months ==> exists k :: 0 <= k < |name| && name[k] !in CommonUtils.RawDate(raw)
    ensures Convert(raw, now) == Err(IndexError)
  {
    var s := CommonUtils.RawDate(raw);
    var words := Split(s);
    SplitCharsOccur(s);
    forall j | 0 <= j < |words| ensures words[j] !in Months {
    }
    NoMonthNameRaises(raw, now);
  }

  /** Where the two converters share their markers they agree: on a text without "hora",
      "días" and "minuto", the file as written and the newer converter with this month table
      give the same date-time. */
  lemma AgreesWithCommonConverter(raw: string, now: DateTime)
    requires Valid(now)
    requires var s := CommonUtils.RawDate(raw);
      !Contains(s, "hora") && !CommonUtils.IsDays(s) && !Contains(s, "minuto")
    ensures ConvertWith(MangledDays, raw, now) == CommonUtils.ConvertDate(raw, now, Months)
  {
    var s := CommonUtils.RawDate(raw);
    DaysBranchUnreachable(raw, now);
    if Contains(s, "horas") {
      assert "horas" == "hora" + "s";
      ContainsPrefix(s, "hora", "s");
    }
    if Contains(s, "minutos") {
      assert "minutos" == "minuto" + "s";
      ContainsPrefix(s, "minuto", "s");
    }
  }

  /** Every month name has a "b", "g", "j", "m" or "n", so a text with none of these letters
      has no month-name word. */
  lemma MonthNamesNeedALetter(s: string)
    requires 'b' !in s && 'g' !in s && 'j' !in s && 'm' !in s && 'n' !in s
    ensures forall name :: name in Months ==> exists k :: 0 <= k < |name| && name[k] !in s
  {
    forall name | name in Months
      ensures exists k :: 0 <= k < |name| && name[k] !in s
    {
      var k :=
        if name == "enero" || name == "abril" || name == "agosto" then 1
        else if name == "febrero" then 2
        else if name == "octubre" then 4
        else if name == "diciembre" then 5
        else if name == "septiembre" then 6
        else 0;
      assert name[k] !in s;
    }
  }

  // Each example text is a parameter fixed by a precondition, so that the verifier does not
  // unfold the recursive text functions on a literal.

  lemma ThreeDaysLower(raw: string)
    requires raw == "hace 3 d\U{ed}as"
    ensures CommonUtils.RawDate(raw) == raw
    ensures 'b' !in raw && 'g' !in raw && 'j' !in raw && 'm' !in raw && 'n' !in raw
    ensures 'o' !in raw && 'y' !in raw
  {
  }

  lemma ThreeDaysMarkers(s: string)
    requires s == "hace 3 d\U{ed}as"
    ensures !CommonUtils.IsYesterday(s) && !IsHour(s) && CommonUtils.IsDays(s)
  {
    MissingCharRulesOut(s, "ayer", 1);
    MissingCharRulesOut(s, "horas", 1);
    assert s[7..11] == "d\U{ed}as";
    ContainsAt(s, "d\U{ed}as", 7);
  }

  lemma ThreeDaysDigits(raw: string)
    requires raw == "hace 3 d\U{ed}as"
    ensures Digits(raw) == "3" && Value("3") == 3
  {
    assert raw == "hace " + "3" + " d\U{ed}as";
    DigitsAround("hace ", "3", " d\U{ed}as");
  }

  /** "hace 3 días" (three days ago), as written: no marker matches and no word is a month
      name, so the default branch raises `IndexError`. */
  lemma ThreeDaysAgoAsWritten(raw: string, now: DateTime)
    requires raw == "hace 3 d\U{ed}as" && Valid(now)
    ensures Convert(raw, now) == Err(IndexError)
  {
    ThreeDaysLower(raw);
    ThreeDaysMarkers(raw);
    MonthNamesNeedALetter(raw);
    NoMonthLetterRaises(raw, now);
  }

  /** "hace 3 días" with the intended marker: exactly three days before `now`. */
  lemma ThreeDaysAgoFixed(raw: string, now: DateTime)
    requires raw == "hace 3 d\U{ed}as" && Valid(now) && ToSeconds(now) >= 3 * CommonUtils.DaySeconds
    ensures var r := ConvertFixed(raw, now);
      r.Ok? && Parse(r.value).Some? && ToSeconds(Parse(r.value).value) == ToSeconds(now) - 3 * CommonUtils.DaySeconds
  {
    ThreeDaysLower(raw);
    ThreeDaysMarkers(raw);
    ThreeDaysDigits(raw);
    FixedDaysBranch(raw, now);
  }

  lemma OneHourLower(raw: string)
    requires raw == "hace 1 hora"
    ensures CommonUtils.RawDate(raw) == raw
    ensures 'b' !in raw && 'g' !in raw && 'j' !in raw && 'm' !in raw && 'n' !in raw
    ensures 'y' !in raw && 's' !in raw
  {
  }

  lemma OneHourMarkers(s: string)
    requires s == "hace 1 hora"
    ensures !CommonUtils.IsYesterday(s) && !IsHour(s) && CommonUtils.IsHour(s)
  {
    MissingCharRulesOut(s, "ayer", 1);
    MissingCharRulesOut(s, "horas", 4);
    assert s[7..11] == "hora";
    ContainsAt(s, "hora", 7);
  }

  lemma OneHourDigits(raw: string)
    requires raw == "hace 1 hora"
    ensures Digits(raw) == "1" && Value("1") == 1
  {
    assert raw == "hace " + "1" + " hora";
    DigitsAround("hace ", "1", " hora");
  }

  /** "hace 1 hora" (an hour ago): the file as written only knows the plural "horas", so the
      text reaches the default branch and raises `IndexError`. */
  lemma OneHourAsWritten(raw: string, now: DateTime)
    requires raw == "hace 1 hora" && Valid(now)
    ensures Convert(raw, now) == Err(IndexError)
  {
    OneHourLower(raw);
    OneHourMarkers(raw);
    MonthNamesNeedALetter(raw);
    NoMonthLetterRaises(raw, now);
  }

  /** The newer converter reads the same text as exactly one hour before `now`. */
  lemma OneHourNewerConverter(raw: string, now: DateTime)
    requires raw == "hace 1 hora" && Valid(now) && ToSeconds(now) >= CommonUtils.HourSeconds
    ensures var r := CommonUtils.ConvertDate(raw, now, Months);
      r.Ok? && ToSeconds(r.value) == ToSeconds(now) - CommonUtils.HourSeconds
  {
    OneHourLower(raw);
    OneHourMarkers(raw);
    OneHourDigits(raw);
    CommonUtils.HourBranch(raw, now, Months);
  }
}

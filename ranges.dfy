/** The report ranges of `app/main.py`: `_parse_iso_date` (`strptime` with `%Y-%m-%d`)
    and `_resolve_range`, which turns a mode (`day`, `week`, `month` or `custom`) and
    optional dates into a range of local days. A range is modelled by the ordinals of
    its first day and of the day after its last, so `[startDay, endDay)` are the days it
    covers; the conversion of the local midnights to epoch seconds is not modelled. */
module Ranges {
  import opened Wrappers
  import opened Text
  import opened Calendar

  // ------------------------------------------------------------ _parse_iso_date

  /** The alternatives `%m` matches, `1[0-2]`, `0[1-9]` and `[1-9]`, tried in that order:
      the month read at `i` and where its digits end. Only a `-` can follow a month, and
      a digit follows the first digit of every two-digit match, so falling back to a
      later alternative never helps and the first one that matches decides. */
  function MatchMonth(s: string, i: nat): (r: Option<(int, nat)>)
    ensures r.Some? ==> 1 <= r.value.0 <= 12 && i < r.value.1 <= |s|
  {
    if i + 1 < |s| && s[i] == '1' && '0' <= s[i + 1] <= '2' then Some((10 + DigitValue(s[i + 1]), i + 2))
    else if i + 1 < |s| && s[i] == '0' && '1' <= s[i + 1] <= '9' then Some((DigitValue(s[i + 1]), i + 2))
    else if i < |s| && '1' <= s[i] <= '9' then Some((DigitValue(s[i]), i + 1))
    else None
  }

  /** The alternatives `%d` matches, `3[01]`, `[12]\d`, `0[1-9]`, `[1-9]` and ` [1-9]`,
      tried in that order: the day read at `i` and where it ends. The day ends the
      format, so the first alternative that matches is the match. */
  function MatchDay(s: string, i: nat): (r: Option<(int, nat)>)
    ensures r.Some? ==> 1 <= r.value.0 <= 31 && i < r.value.1 <= |s|
  {
    if i + 1 < |s| && s[i] == '3' && '0' <= s[i + 1] <= '1' then Some((30 + DigitValue(s[i + 1]), i + 2))
    else if i + 1 < |s| && '1' <= s[i] <= '2' && IsDigit(s[i + 1]) then
      Some((10 * DigitValue(s[i]) + DigitValue(s[i + 1]), i + 2))
    else if i + 1 < |s| && s[i] == '0' && '1' <= s[i + 1] <= '9' then Some((DigitValue(s[i + 1]), i + 2))
    else if i < |s| && '1' <= s[i] <= '9' then Some((DigitValue(s[i]), i + 1))
    else if i + 1 < |s| && s[i] == ' ' && '1' <= s[i + 1] <= '9' then Some((DigitValue(s[i + 1]), i + 2))
    else None
  }

  /** `_parse_iso_date`: four digits of year, `-`, a month, `-`, a day and nothing after
      it, naming a date `datetime.date` accepts; anything else is `None` (the source's
      400 error). */
  function ParseIsoDate(raw: string): (r: Option<Date>)
    ensures r.Some? ==> ValidDate(r.value)
  {
    if |raw| < 5 || !AllDigits(raw[..4]) || raw[4] != '-' then None
    else match MatchMonth(raw, 5)
      case None => None
      case Some((month, j)) =>
        if j >= |raw| || raw[j] != '-' then None
        else match MatchDay(raw, j + 1)
          case None => None
          case Some((day, k)) =>
            var d := Date(DecimalValue(raw[..4]), month, day);
            if k == |raw| && ValidDate(d) then Some(d) else None
  }

  /** Appending two digits to a decimal numeral multiplies its value by 100 and adds theirs. */
  lemma DecimalAppend2(a: string, b: string)
    requires AllDigits(a) && AllDigits(b) && |b| == 2
    ensures AllDigits(a + b) && DecimalValue(a + b) == 100 * DecimalValue(a) + DecimalValue(b)
  {
    var ab := a + b;
    var a1 := a + b[..1];
    assert ab[..|ab| - 1] == a1 && ab[|ab| - 1] == b[1];
    assert a1[..|a1| - 1] == a && a1[|a1| - 1] == b[0];
    assert DecimalValue(a1) == 10 * DecimalValue(a) + DigitValue(b[0]);
    assert b[..1][..0] == [] && b[..1][0] == b[0];
    assert DecimalValue(b[..1]) == DigitValue(b[0]);
    assert DecimalValue(b) == 10 * DigitValue(b[0]) + DigitValue(b[1]);
  }

  /** `f"{n:04d}"` for `n < 10000`. */
  function Pad4(n: nat): (r: string)
    requires n < 10000
    ensures |r| == 4 && AllDigits(r) && DecimalValue(r) == n
  {
    DecimalAppend2(Pad2(n / 100), Pad2(n % 100));
    Pad2(n / 100) + Pad2(n % 100)
  }

  /** `date.isoformat()`: `YYYY-MM-DD`, zero-padded. */
  function FormatIsoDate(d: Date): (r: string)
    requires ValidDate(d)
    ensures |r| == 10
  {
    Pad4(d.year) + "-" + Pad2(d.month) + "-" + Pad2(d.day)
  }

  /** The two digits of `Pad2(n)` are the tens and the units of `n`. */
  lemma Pad2Digits(n: nat)
    requires n < 100
    ensures Pad2(n)[0] == DigitChar(n / 10) && Pad2(n)[1] == DigitChar(n % 10)
  {
  }

  lemma MatchPaddedMonth(s: string, i: nat, m: int)
    requires 1 <= m <= 12 && i + 1 < |s| && s[i..i + 2] == Pad2(m)
    ensures MatchMonth(s, i) == Some((m, i + 2))
  {
    Pad2Digits(m);
    assert s[i] == Pad2(m)[0] && s[i + 1] == Pad2(m)[1];
  }

  lemma MatchPaddedDay(s: string, i: nat, d: int)
    requires 1 <= d <= 31 && i + 1 < |s| && s[i..i + 2] == Pad2(d)
    ensures MatchDay(s, i) == Some((d, i + 2))
  {
    Pad2Digits(d);
    assert s[i] == Pad2(d)[0] && s[i + 1] == Pad2(d)[1];
  }

  /** Every date the report shows as its anchor parses back to itself. */
  lemma ParseFormatRoundTrip(d: Date)
    requires ValidDate(d)
    ensures ParseIsoDate(FormatIsoDate(d)) == Some(d)
  {
    var raw := FormatIsoDate(d);
    assert raw[..4] == Pad4(d.year);
    assert raw[4] == '-' && raw[7] == '-';
    assert raw[5..7] == Pad2(d.month);
    assert raw[8..10] == Pad2(d.day);
    MatchPaddedMonth(raw, 5, d.month);
    MatchPaddedDay(raw, 8, d.day);
  }

  // -------------------------------------------------------------- _resolve_range

  datatype RangeMode = Day | Week | Month | Custom

  /** The name of a mode, as the report echoes it. */
  function ModeName(m: RangeMode): string {
    match m
    case Day => "day"
    case Week => "week"
    case Month => "month"
    case Custom => "custom"
  }

  /** The mode a normalised name selects, if any. */
  function ModeNamed(norm: string): (r: Option<RangeMode>)
    ensures r.Some? ==> ModeName(r.value) == norm
  {
    if norm == "day" then Some(Day)
    else if norm == "week" then Some(Week)
    else if norm == "month" then Some(Month)
    else if norm == "custom" then Some(Custom)
    else None
  }

  /** Each mode is selected by its own name. */
  lemma ModeNamesRoundTrip(m: RangeMode)
    ensures ModeNamed(ModeName(m)) == Some(m)
  {
  }

  /** `(mode or "day").strip().lower()`. */
  function NormalizeMode(mode: string): string {
    Lower(Strip(if mode == [] then "day" else mode))
  }

  /** Python's truthiness of an optional string: present and not empty. */
  predicate Given(raw: Option<string>) {
    raw.Some? && raw.value != []
  }

  /** The errors `_resolve_range` raises: the 400 responses, and the date arithmetic past
      9999-12-31 that raises an unhandled `OverflowError` or `ValueError`. */
  datatype RangeError =
    | BadMode
    | BadDate(field: string)
    | MissingCustomDates
    | EndBeforeStart
    | SpanTooLarge
    | DateOutOfRange

  /** `RangeSpec`, with the local midnights of `start` and `end` as day ordinals. */
  datatype RangeSpec = RangeSpec(mode: RangeMode, startDay: int, endDay: int, anchor: Date)

  const MaxCustomDays := 365

  /** A day ordinal whose midnight `datetime` can represent. */
  predicate Representable(ord: int) {
    1 <= ord <= MaxOrdinal
  }

  /** The anchor: today when no anchor date is given. */
  function AnchorDate(anchorRaw: Option<string>, today: Date): (r: Result<Date, RangeError>)
    requires ValidDate(today)
    ensures r.Ok? ==> ValidDate(r.value)
    ensures !Given(anchorRaw) ==> r == Ok(today)
    ensures Given(anchorRaw) ==> r.Err? == ParseIsoDate(anchorRaw.value).None?
  {
    if !Given(anchorRaw) then Ok(today)
    else match ParseIsoDate(anchorRaw.value)
      case None => Err(BadDate("anchor_date"))
      case Some(d) => Ok(d)
  }

  /** The day of the anchor. */
  function DayRange(anchor: Date): (r: Result<RangeSpec, RangeError>)
    requires ValidDate(anchor)
    ensures r.Ok? <==> Ordinal(anchor) < MaxOrdinal
    ensures r.Err? ==> r.error == DateOutOfRange
    ensures r.Ok? ==> r.value.startDay == Ordinal(anchor) && r.value.endDay == r.value.startDay + 1
  {
    var start := Ordinal(anchor);
    if start + 1 > MaxOrdinal then Err(DateOutOfRange) else Ok(RangeSpec(Day, start, start + 1, anchor))
  }

  /** The Monday-to-Sunday week of the anchor. */
  function WeekRange(anchor: Date): (r: Result<RangeSpec, RangeError>)
    requires ValidDate(anchor)
    ensures r.Ok? <==> WeekStart(Ordinal(anchor)) + 7 <= MaxOrdinal
    ensures r.Err? ==> r.error == DateOutOfRange
    ensures r.Ok? ==>
      && Weekday(r.value.startDay) == 0 && r.value.endDay == r.value.startDay + 7
      && r.value.startDay <= Ordinal(anchor) < r.value.endDay
  {
    var start := WeekStart(Ordinal(anchor));
    if start + 7 > MaxOrdinal then Err(DateOutOfRange) else Ok(RangeSpec(Week, start, start + 7, anchor))
  }

  /** The calendar month of the anchor. */
  function MonthRange(anchor: Date): (r: Result<RangeSpec, RangeError>)
    requires ValidDate(anchor)
    ensures r.Ok? <==> ValidDate(NextMonthStart(anchor))
    ensures r.Err? ==> r.error == DateOutOfRange
    ensures r.Ok? ==>
      && r.value.startDay == Ordinal(MonthStart(anchor))
      && r.value.endDay - r.value.startDay == DaysInMonth(anchor.year, anchor.month)
      && r.value.startDay <= Ordinal(anchor) < r.value.endDay
  {
    var first := MonthStart(anchor);
    var next := NextMonthStart(anchor);
    if !ValidDate(next) then Err(DateOutOfRange)
    else
      MonthSpan(anchor);
      Ok(RangeSpec(Month, Ordinal(first), Ordinal(next), anchor))
  }

  /** The days from `start_date` to `end_date`, both included: both must be given and
      parse, the end may not come before the start, the day after the end must be
      representable, and at most a year of days is allowed. */
  function CustomRange(startRaw: Option<string>, endRaw: Option<string>, anchor: Date)
    : (r: Result<RangeSpec, RangeError>)
    ensures (!Given(startRaw) || !Given(endRaw)) <==> r == Err(MissingCustomDates)
    ensures r == Err(BadDate("start_date")) <==>
      Given(startRaw) && Given(endRaw) && ParseIsoDate(startRaw.value).None?
    ensures r == Err(BadDate("end_date")) <==>
      && Given(startRaw) && Given(endRaw)
      && ParseIsoDate(startRaw.value).Some? && ParseIsoDate(endRaw.value).None?
    ensures r == Err(EndBeforeStart) <==>
      && Given(startRaw) && Given(endRaw)
      && ParseIsoDate(startRaw.value).Some? && ParseIsoDate(endRaw.value).Some?
      && Ordinal(ParseIsoDate(endRaw.value).value) < Ordinal(ParseIsoDate(startRaw.value).value)
    ensures r == Err(DateOutOfRange) <==>
      && Given(startRaw) && Given(endRaw)
      && ParseIsoDate(startRaw.value).Some? && ParseIsoDate(endRaw.value).Some?
      && var first, last := ParseIsoDate(startRaw.value).value, ParseIsoDate(endRaw.value).value;
         Ordinal(first) <= Ordinal(last) && Ordinal(last) >= MaxOrdinal
    ensures r == Err(SpanTooLarge) <==>
      && Given(startRaw) && Given(endRaw)
      && ParseIsoDate(startRaw.value).Some? && ParseIsoDate(endRaw.value).Some?
      && var first, last := ParseIsoDate(startRaw.value).value, ParseIsoDate(endRaw.value).value;
         Ordinal(first) <= Ordinal(last) < MaxOrdinal && Ordinal(last) - Ordinal(first) >= MaxCustomDays
    ensures r.Ok? <==>
      && Given(startRaw) && Given(endRaw)
      && ParseIsoDate(startRaw.value).Some? && ParseIsoDate(endRaw.value).Some?
      && var first, last := ParseIsoDate(startRaw.value).value, ParseIsoDate(endRaw.value).value;
         Ordinal(first) <= Ordinal(last) < MaxOrdinal && Ordinal(last) - Ordinal(first) < MaxCustomDays
    ensures r.Ok? ==>
      && r.value.startDay == Ordinal(ParseIsoDate(startRaw.value).value)
      && r.value.endDay == Ordinal(ParseIsoDate(endRaw.value).value) + 1
      && 1 <= r.value.endDay - r.value.startDay <= MaxCustomDays
  {
    if !Given(startRaw) || !Given(endRaw) then Err(MissingCustomDates)
    else match ParseIsoDate(startRaw.value)
      case None => Err(BadDate("start_date"))
      case Some(first) =>
        match ParseIsoDate(endRaw.value)
        case None => Err(BadDate("end_date"))
        case Some(last) =>
          if Ordinal(last) < Ordinal(first) then Err(EndBeforeStart)
          else if Ordinal(last) + 1 > MaxOrdinal then Err(DateOutOfRange)
          else if Ordinal(last) - Ordinal(first) + 1 > MaxCustomDays then Err(SpanTooLarge)
          else Ok(RangeSpec(Custom, Ordinal(first), Ordinal(last) + 1, anchor))
  }

  /** The range of one mode around a valid anchor: a non-empty span of representable days
      that holds the anchor's day unless the mode is `custom`. */
  function ModeRange(m: RangeMode, startRaw: Option<string>, endRaw: Option<string>, anchor: Date)
    : (r: Result<RangeSpec, RangeError>)
    requires ValidDate(anchor)
    ensures m == Day ==> r == DayRange(anchor)
    ensures m == Week ==> r == WeekRange(anchor)
    ensures m == Month ==> r == MonthRange(anchor)
    ensures m == Custom ==> r == CustomRange(startRaw, endRaw, anchor)
    ensures m != Custom && r.Err? ==> r.error == DateOutOfRange
    ensures r.Err? ==> r.error != BadMode && r.error != BadDate("anchor_date")
    ensures r.Ok? ==>
      && r.value.mode == m && r.value.anchor == anchor
      && Representable(r.value.startDay) && r.value.startDay < r.value.endDay <= MaxOrdinal
      && (m != Custom ==> r.value.startDay <= Ordinal(anchor) < r.value.endDay)
  {
    OrdinalBounds(anchor);
    match m
    case Day => DayRange(anchor)
    case Week => WeekRange(anchor)
    case Month =>
      OrdinalBounds(MonthStart(anchor));
      if ValidDate(NextMonthStart(anchor)) then
        OrdinalBounds(NextMonthStart(anchor));
        MonthRange(anchor)
      else MonthRange(anchor)
    case Custom =>
      if Given(startRaw) && ParseIsoDate(startRaw.value).Some? then
        OrdinalBounds(ParseIsoDate(startRaw.value).value);
        CustomRange(startRaw, endRaw, anchor)
      else CustomRange(startRaw, endRaw, anchor)
  }

  /** `_resolve_range`, with `now.date()` as `today`. The mode is checked first, then the
      anchor date (in every mode, `custom` included), then what the mode needs. */
  function ResolveRange(mode: string, anchorRaw: Option<string>, startRaw: Option<string>,
                        endRaw: Option<string>, today: Date): (r: Result<RangeSpec, RangeError>)
    requires ValidDate(today)
    ensures ModeNamed(NormalizeMode(mode)).None? <==> r == Err(BadMode)
    ensures ModeNamed(NormalizeMode(mode)).Some? && Given(anchorRaw) && ParseIsoDate(anchorRaw.value).None? ==>
      r == Err(BadDate("anchor_date"))
    ensures ModeNamed(NormalizeMode(mode)).Some? && AnchorDate(anchorRaw, today).Ok? ==>
      r == ModeRange(ModeNamed(NormalizeMode(mode)).value, startRaw, endRaw, AnchorDate(anchorRaw, today).value)
    ensures r.Ok? ==>
      && ModeNamed(NormalizeMode(mode)) == Some(r.value.mode)
      && r.value.anchor == (if Given(anchorRaw) then ParseIsoDate(anchorRaw.value).value else today)
      && Representable(r.value.startDay) && r.value.startDay < r.value.endDay <= MaxOrdinal
      && (r.value.mode != Custom ==> r.value.startDay <= Ordinal(r.value.anchor) < r.value.endDay)
  {
    match ModeNamed(NormalizeMode(mode))
    case None => Err(BadMode)
    case Some(m) =>
      match AnchorDate(anchorRaw, today)
      case Err(e) => Err(e)
      case Ok(anchor) => ModeRange(m, startRaw, endRaw, anchor)
  }

  /** A custom request whose end date comes before its start date is refused as such,
      once the mode and the anchor are accepted, whatever today is. */
  lemma CustomEndBeforeStartRefused(mode: string, anchorRaw: Option<string>, startRaw: Option<string>,
                                    endRaw: Option<string>, today: Date)
    requires ValidDate(today)
    requires ModeNamed(NormalizeMode(mode)) == Some(Custom)
    requires !Given(anchorRaw) || ParseIsoDate(anchorRaw.value).Some?
    requires Given(startRaw) && Given(endRaw)
    requires ParseIsoDate(startRaw.value).Some? && ParseIsoDate(endRaw.value).Some?
    requires Ordinal(ParseIsoDate(endRaw.value).value) < Ordinal(ParseIsoDate(startRaw.value).value)
    ensures ResolveRange(mode, anchorRaw, startRaw, endRaw, today) == Err(EndBeforeStart)
  {
    var anchor := AnchorDate(anchorRaw, today);
    assert anchor.Ok?;
    assert ModeRange(Custom, startRaw, endRaw, anchor.value) == Err(EndBeforeStart);
  }
}

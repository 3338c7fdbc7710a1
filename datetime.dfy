/**
 * bob.util.DateTimeUtil: resolving free-form date/time text with an ordered
 * list of patterns, the display formats and the fixed storage format.
 * Timestamps are minute-precision records; every pattern the resolver
 * knows stops at minutes, so a resolved time never carries seconds.
 */
module DateTimeUtil {
  import opened Options
  import opened Strings

  datatype Date = Date(year: int, month: int, day: int)

  /** A LocalDateTime at minute precision. */
  datatype DateTime = DateTime(date: Date, hour: int, minute: int)

  predicate IsLeapYear(y: int) {
    (y % 4 == 0 && y % 100 != 0) || y % 400 == 0
  }

  function DaysInMonth(year: int, month: int): int
    requires 1 <= month <= 12
  {
    if month == 2 then (if IsLeapYear(year) then 29 else 28)
    else if month == 4 || month == 6 || month == 9 || month == 11 then 30
    else 31
  }

  /** A calendar date with a four-digit year, the range every pattern here reads and writes. */
  predicate ValidDate(d: Date) {
    1 <= d.year <= 9999 && 1 <= d.month <= 12 && 1 <= d.day <= DaysInMonth(d.year, d.month)
  }

  predicate ValidTime(hour: int, minute: int) {
    0 <= hour <= 23 && 0 <= minute <= 59
  }

  predicate ValidDateTime(dt: DateTime) {
    ValidDate(dt.date) && ValidTime(dt.hour, dt.minute)
  }

  /** A LocalDateTime value as the program holds it: always a real calendar minute. */
  type Timestamp = dt: DateTime | ValidDateTime(dt) witness DateTime(Date(1, 1, 1), 0, 0)

  function AsTimestamp(r: Option<DateTime>): (t: Option<Timestamp>)
    requires r.Some? ==> ValidDateTime(r.value)
    ensures t == r
  {
    if r.Some? then var v: Timestamp := r.value; Some(v) else None
  }

  /** LocalDate.atStartOfDay(). */
  function AtStartOfDay(d: Date): DateTime {
    DateTime(d, 0, 0)
  }

  predicate IsMidnight(dt: DateTime) {
    dt.hour == 0 && dt.minute == 0
  }

  /** LocalDate.isBefore. */
  predicate DateBefore(a: Date, b: Date) {
    a.year < b.year ||
    (a.year == b.year && (a.month < b.month || (a.month == b.month && a.day < b.day)))
  }

  /** LocalDateTime.isBefore. */
  predicate IsBefore(a: DateTime, b: DateTime) {
    DateBefore(a.date, b.date) ||
    (a.date == b.date && (a.hour < b.hour || (a.hour == b.hour && a.minute < b.minute)))
  }

  /** LocalDateTime.isAfter. */
  predicate IsAfter(a: DateTime, b: DateTime) {
    IsBefore(b, a)
  }

  // ------------------------------------------------------------ patterns

  /** The patterns the resolver knows, named after their java.time pattern strings. */
  datatype Pattern =
    | IsoCompact   // yyyy-MM-dd HHmm (also the storage format)
    | IsoColon     // yyyy-MM-dd HH:mm
    | DmyCompact   // d/M/yyyy HHmm
    | DmyColon     // d/M/yyyy HH:mm
    | IsoDate      // yyyy-MM-dd
    | DmyDate      // d/M/yyyy

  /** The date+time patterns, in the order the resolver tries them. */
  const DateTimePatterns: seq<Pattern> := [IsoCompact, IsoColon, DmyCompact, DmyColon]

  /** The date-only patterns, tried after every date+time pattern has failed. */
  const DateOnlyPatterns: seq<Pattern> := [IsoDate, DmyDate]

  function Validated(year: int, month: int, day: int): (r: Option<Date>)
    ensures r.Some? ==> ValidDate(r.value)
  {
    if ValidDate(Date(year, month, day)) then Some(Date(year, month, day)) else None
  }

  /** LocalDate.parse(s, "yyyy-MM-dd"). */
  function ParseIsoDate(s: string): (r: Option<Date>)
    ensures r.Some? ==> ValidDate(r.value) && |s| == 10 && s[4] == '-' && ' ' !in s
  {
    if |s| == 10 && s[4] == '-' && s[7] == '-' &&
       AllDigits(s[..4]) && AllDigits(s[5..7]) && AllDigits(s[8..])
    then
      Validated(DigitsValue(s[..4]), DigitsValue(s[5..7]), DigitsValue(s[8..]))
    else None
  }

  /** Digits for a d or M field: java.time reads between one and nineteen of them. */
  predicate IsVariableField(s: string) {
    1 <= |s| <= 19 && AllDigits(s)
  }

  /** s split at its first two slashes: the text before, between and after them. */
  function SlashFields(s: string): (r: Option<(string, string, string)>)
    ensures r.Some? ==> s == r.value.0 + "/" + r.value.1 + "/" + r.value.2
    ensures r.Some? ==> '/' !in r.value.0 && '/' !in r.value.1
  {
    var i := IndexOf(s, "/");
    if i < 0 then None
    else
      var rest := s[i + 1..];
      var j := IndexOf(rest, "/");
      if j < 0 then None
      else
        BeforeFirstChar(s, '/');
        BeforeFirstChar(rest, '/');
        Some((s[..i], rest[..j], rest[j + 1..]))
  }

  /** The three fields are d, M and yyyy, in that order, and name the date d. */
  predicate DayMonthYear(f: (string, string, string), d: Date) {
    IsVariableField(f.0) && IsVariableField(f.1) && |f.2| == 4 && AllDigits(f.2) &&
    d == Date(DigitsValue(f.2), DigitsValue(f.1), DigitsValue(f.0))
  }

  /** LocalDate.parse(s, "d/M/yyyy"): the day first, then the month, then a four-digit year. */
  function ParseDmyDate(s: string): (r: Option<Date>)
    ensures r.Some? ==> ValidDate(r.value) && |s| >= 8 && s[4] != '-' && ' ' !in s
    ensures r.Some? ==> SlashFields(s).Some? && DayMonthYear(SlashFields(s).value, r.value)
  {
    var f := SlashFields(s);
    if f.None? then None
    else
      var (day, month, year) := f.value;
      if IsVariableField(day) && IsVariableField(month) && |year| == 4 && AllDigits(year) then
        DatePartsShape(day, month, year);
        Validated(DigitsValue(year), DigitsValue(month), DigitsValue(day))
      else None
  }

  /** A "d/M/yyyy" text is at least eight characters of digits and slashes. */
  lemma DatePartsShape(day: string, month: string, year: string)
    requires IsVariableField(day) && IsVariableField(month) && |year| == 4 && AllDigits(year)
    ensures var s := day + "/" + month + "/" + year; |s| >= 8 && s[4] != '-' && ' ' !in s
  {
    var s := day + "/" + month + "/" + year;
    forall k | 0 <= k < |s| ensures IsDigit(s[k]) || s[k] == '/' {
      if k < |day| {
        assert s[k] == day[k];
      } else if |day| < k < |day| + 1 + |month| {
        assert s[k] == month[k - |day| - 1];
      } else if |day| + 1 + |month| < k {
        assert s[k] == year[k - |day| - |month| - 2];
      }
    }
  }

  /** "HHmm": the hour and the minute, two digits each. */
  function FormatCompactTime(hour: int, minute: int): (r: string)
    requires ValidTime(hour, minute)
    ensures |r| == 4 && AllDigits(r)
    ensures DigitsValue(r[..2]) == hour && DigitsValue(r[2..]) == minute
  {
    var r := PaddedDigits(hour, 2) + PaddedDigits(minute, 2);
    assert r[..2] == PaddedDigits(hour, 2) && r[2..] == PaddedDigits(minute, 2);
    PaddedDigitsValue(hour, 2);
    PaddedDigitsValue(minute, 2);
    r
  }

  /** "HH:mm". */
  function FormatTime(hour: int, minute: int): (r: string)
    requires ValidTime(hour, minute)
    ensures |r| == 5 && r[2] == ':' && AllDigits(r[..2]) && AllDigits(r[3..])
    ensures DigitsValue(r[..2]) == hour && DigitsValue(r[3..]) == minute
  {
    var r := PaddedDigits(hour, 2) + ":" + PaddedDigits(minute, 2);
    assert r[..2] == PaddedDigits(hour, 2) && r[3..] == PaddedDigits(minute, 2);
    PaddedDigitsValue(hour, 2);
    PaddedDigitsValue(minute, 2);
    r
  }

  /** LocalTime.parse(t, "HHmm"): only the "HHmm" rendering of a valid time, read as that time. */
  function ParseCompactTime(t: string): (r: Option<(int, int)>)
    ensures r.Some? ==> |t| == 4 && ValidTime(r.value.0, r.value.1)
    ensures r.Some? ==> t == FormatCompactTime(r.value.0, r.value.1)
  {
    if |t| == 4 && AllDigits(t) && ValidTime(DigitsValue(t[..2]), DigitsValue(t[2..]))
    then
      PaddedOfDigits(t[..2]);
      PaddedOfDigits(t[2..]);
      assert t == t[..2] + t[2..];
      Some((DigitsValue(t[..2]), DigitsValue(t[2..])))
    else None
  }

  /** LocalTime.parse(t, "HH:mm"): only the "HH:mm" rendering of a valid time, read as that time. */
  function ParseColonTime(t: string): (r: Option<(int, int)>)
    ensures r.Some? ==> |t| == 5 && ValidTime(r.value.0, r.value.1)
    ensures r.Some? ==> t == FormatTime(r.value.0, r.value.1)
  {
    if |t| == 5 && t[2] == ':' && AllDigits(t[..2]) && AllDigits(t[3..]) &&
       ValidTime(DigitsValue(t[..2]), DigitsValue(t[3..]))
    then
      PaddedOfDigits(t[..2]);
      PaddedOfDigits(t[3..]);
      assert t == t[..2] + ":" + t[3..];
      Some((DigitsValue(t[..2]), DigitsValue(t[3..])))
    else None
  }

  /** "HHmm" reads back every time it writes. */
  lemma CompactTimeRoundTrip(hour: int, minute: int)
    requires ValidTime(hour, minute)
    ensures ParseCompactTime(FormatCompactTime(hour, minute)) == Some((hour, minute))
  {
  }

  /** "HH:mm" reads back every time it writes. */
  lemma ColonTimeRoundTrip(hour: int, minute: int)
    requires ValidTime(hour, minute)
    ensures ParseColonTime(FormatTime(hour, minute)) == Some((hour, minute))
  {
  }

  function Combine(date: Option<Date>, time: Option<(int, int)>): Option<DateTime> {
    if date.Some? && time.Some? then Some(DateTime(date.value, time.value.0, time.value.1)) else None
  }

  function AtMidnight(date: Option<Date>): Option<DateTime> {
    if date.Some? then Some(AtStartOfDay(date.value)) else None
  }

  /** The two halves of a "d/M/yyyy" date+time text, split at the single space between them. */
  function DmyHalves(s: string): (r: (string, string))
    requires ' ' in s
    ensures |r.0| < |s| && r.0 == s[..|r.0|]
  {
    CharIndex(s, ' ');
    var i := IndexOf(s, " ");
    (s[..i], s[i + 1..])
  }

  /**
   * The text has the outward form that a successful parse with pattern p
   * requires; no text has the forms of two different patterns.
   */
  predicate Shape(p: Pattern, s: string) {
    match p
    case IsoCompact => |s| == 15 && s[4] == '-' && ' ' in s
    case IsoColon => |s| == 16 && s[4] == '-' && ' ' in s
    case IsoDate => |s| == 10 && s[4] == '-' && ' ' !in s
    case DmyCompact => |s| > 4 && s[4] != '-' && ' ' in s && |DmyHalves(s).1| == 4
    case DmyColon => |s| > 4 && s[4] != '-' && ' ' in s && |DmyHalves(s).1| == 5
    case DmyDate => |s| > 4 && s[4] != '-' && ' ' !in s
  }

  /** LocalDateTime.parse(s, "d/M/yyyy HH:mm") when colon holds, else with "d/M/yyyy HHmm". */
  function DmyDateTime(s: string, colon: bool): (r: Option<DateTime>)
    requires ' ' in s
    ensures r.Some? ==> ValidDateTime(r.value) && |s| > 4 && s[4] != '-'
    ensures r.Some? ==> |DmyHalves(s).1| == if colon then 5 else 4
    ensures r.Some? ==> ParseDmyDate(DmyHalves(s).0) == Some(r.value.date)
    ensures r.Some? && colon ==> DmyHalves(s).1 == FormatTime(r.value.hour, r.value.minute)
    ensures r.Some? && !colon ==> DmyHalves(s).1 == FormatCompactTime(r.value.hour, r.value.minute)
  {
    var halves := DmyHalves(s);
    var date := ParseDmyDate(halves.0);
    var time := if colon then ParseColonTime(halves.1) else ParseCompactTime(halves.1);
    if date.Some? && time.Some? then
      assert s[4] == halves.0[4];
      Some(DateTime(date.value, time.value.0, time.value.1))
    else None
  }

  /** LocalDateTime.parse(s, p), or LocalDate.parse(s, p).atStartOfDay() for a date-only p. */
  function Apply(p: Pattern, s: string): (r: Option<DateTime>)
    ensures r.Some? ==> ValidDateTime(r.value) && Shape(p, s)
    ensures r.Some? && (p == IsoDate || p == DmyDate) ==> IsMidnight(r.value)
  {
    match p
    case IsoCompact =>
      if |s| > 10 && s[10] == ' ' then Combine(ParseIsoDate(s[..10]), ParseCompactTime(s[11..])) else None
    case IsoColon =>
      if |s| > 10 && s[10] == ' ' then Combine(ParseIsoDate(s[..10]), ParseColonTime(s[11..])) else None
    case DmyCompact => if ' ' in s then DmyDateTime(s, false) else None
    case DmyColon => if ' ' in s then DmyDateTime(s, true) else None
    case IsoDate => AtMidnight(ParseIsoDate(s))
    case DmyDate => AtMidnight(ParseDmyDate(s))
  }

  /** The result of the first pattern in ps that accepts s, as the resolver's loops return it. */
  function FirstMatch(ps: seq<Pattern>, s: string): (r: Option<DateTime>)
    ensures r.None? <==> forall k :: 0 <= k < |ps| ==> Apply(ps[k], s).None?
    ensures r.Some? ==> exists k :: 0 <= k < |ps| && Apply(ps[k], s) == r
  {
    if ps == [] then None
    else if Apply(ps[0], s).Some? then Apply(ps[0], s)
    else
      var r := FirstMatch(ps[1..], s);
      assert forall k :: 0 <= k < |ps[1..]| ==> ps[1..][k] == ps[k + 1];
      r
  }

  /** DateTimeUtil.parseUserDateTime: trim, then the date+time patterns, then the date-only ones. */
  function ParseUserDateTime(raw: string): (r: Option<Timestamp>)
  {
    var s := Trim(raw);
    var withTime := FirstMatch(DateTimePatterns, s);
    AsTimestamp(if withTime.Some? then withTime else FirstMatch(DateOnlyPatterns, s))
  }

  // ------------------------------------------------------------ resolver properties

  /** The input is trimmed before any pattern sees it. */
  lemma ParseUserDateTimeTrims(raw: string)
    ensures ParseUserDateTime(raw) == ParseUserDateTime(Trim(raw))
  {
    TrimIdempotent(raw);
  }

  /** No text has the outward form of two different patterns. */
  lemma ShapesDisjoint(p: Pattern, q: Pattern, s: string)
    requires p != q
    ensures !(Shape(p, s) && Shape(q, s))
  {
  }

  /** At most one pattern accepts any given text. */
  lemma PatternsExclusive(p: Pattern, q: Pattern, s: string)
    requires p != q && Apply(p, s).Some?
    ensures Apply(q, s).None?
  {
    if Apply(q, s).Some? {
      ShapesDisjoint(p, q, s);
    }
  }

  /** When exactly one pattern reads the text, the first match among patterns that include it is its result. */
  lemma FirstMatchOfOnly(ps: seq<Pattern>, s: string, p: Pattern, dt: DateTime)
    requires Apply(p, s) == Some(dt)
    requires forall q :: q != p ==> Apply(q, s).None?
    ensures p in ps ==> FirstMatch(ps, s) == Some(dt)
    ensures p !in ps ==> FirstMatch(ps, s) == None
  {
    if p in ps {
      var k :| 0 <= k < |ps| && ps[k] == p;
      assert Apply(ps[k], s).Some?;
    }
  }

  /** A pattern that reads the text decides the resolver's answer. */
  lemma OrderFreeIf(raw: string, p: Pattern, dt: DateTime)
    requires Apply(p, Trim(raw)) == Some(dt)
    ensures ParseUserDateTime(raw) == Some(dt)
  {
    var s := Trim(raw);
    forall q | q != p ensures Apply(q, s).None? {
      PatternsExclusive(p, q, s);
    }
    FirstMatchOfOnly(DateTimePatterns, s, p, dt);
    FirstMatchOfOnly(DateOnlyPatterns, s, p, dt);
    assert p in DateTimePatterns || p in DateOnlyPatterns;
  }

  /** Every answer of the resolver is some pattern's reading of the trimmed text. */
  lemma OrderFreeOnlyIf(raw: string, dt: DateTime)
    requires ParseUserDateTime(raw) == Some(dt)
    ensures exists p :: Apply(p, Trim(raw)) == Some(dt)
  {
    var s := Trim(raw);
    var withTime := FirstMatch(DateTimePatterns, s);
    var r := if withTime.Some? then withTime else FirstMatch(DateOnlyPatterns, s);
    assert r == Some(dt);
    if withTime.Some? {
      var k :| 0 <= k < |DateTimePatterns| && Apply(DateTimePatterns[k], s) == r;
    } else {
      var k :| 0 <= k < |DateOnlyPatterns| && Apply(DateOnlyPatterns[k], s) == r;
    }
  }

  /**
   * The order of the patterns decides nothing: the resolver returns dt
   * exactly when some pattern reads dt from the trimmed text.
   */
  lemma ParseUserDateTimeOrderFree(raw: string, dt: DateTime)
    ensures ParseUserDateTime(raw) == Some(dt) <==> exists p :: Apply(p, Trim(raw)) == Some(dt)
  {
    if exists p :: Apply(p, Trim(raw)) == Some(dt) {
      var p :| Apply(p, Trim(raw)) == Some(dt);
      OrderFreeIf(raw, p, dt);
    }
    if ParseUserDateTime(raw) == Some(dt) {
      OrderFreeOnlyIf(raw, dt);
    }
  }

  /** Text that no pattern reads is refused. */
  lemma NoPatternApplies(raw: string)
    requires forall p :: Apply(p, Trim(raw)) == None
    ensures ParseUserDateTime(raw) == None
  {
    forall dt ensures ParseUserDateTime(raw) != Some(dt) {
      ParseUserDateTimeOrderFree(raw, dt);
    }
  }

  /** A bare date, in either date-only form, resolves to the start of that day. */
  lemma DateOnlyIsMidnight(raw: string, d: Date)
    requires ParseIsoDate(Trim(raw)) == Some(d) || ParseDmyDate(Trim(raw)) == Some(d)
    ensures ParseUserDateTime(raw) == Some(AtStartOfDay(d))
  {
    var p := if ParseIsoDate(Trim(raw)) == Some(d) then IsoDate else DmyDate;
    assert Apply(p, Trim(raw)) == Some(AtStartOfDay(d));
    OrderFreeIf(raw, p, AtStartOfDay(d));
  }

  // ------------------------------------------------------------ formatting

  const MonthAbbreviations: seq<string> :=
    ["Jan", "Feb", "Mar", "Apr", "May", "Jun", "Jul", "Aug", "Sep", "Oct", "Nov", "Dec"]

  /** "MMM dd yyyy" in English: DateTimeUtil.formatDateForDisplay. */
  function FormatDateForDisplay(d: Date): (r: string)
    requires ValidDate(d)
    ensures |r| == 11 && r[..3] == MonthAbbreviations[d.month - 1] && r[3] == ' ' && r[6] == ' '
    ensures AllDigits(r[4..6]) && AllDigits(r[7..])
    ensures DigitsValue(r[4..6]) == d.day && DigitsValue(r[7..]) == d.year
  {
    var r := MonthAbbreviations[d.month - 1] + " " + PaddedDigits(d.day, 2) + " " + PaddedDigits(d.year, 4);
    assert r[4..6] == PaddedDigits(d.day, 2) && r[7..] == PaddedDigits(d.year, 4);
    PaddedDigitsValue(d.day, 2);
    PaddedDigitsValue(d.year, 4);
    r
  }

  /** DateTimeUtil.formatForDisplay: the date alone at exactly midnight, else the date and "HH:mm". */
  function FormatForDisplay(dt: Timestamp): (r: string)
    ensures IsMidnight(dt) ==> r == FormatDateForDisplay(dt.date)
    ensures !IsMidnight(dt) ==> |r| == 17 && r[..11] == FormatDateForDisplay(dt.date) && r[11] == ' '
    ensures !IsMidnight(dt) ==> r[12..] == FormatTime(dt.hour, dt.minute)
  {
    if IsMidnight(dt) then FormatDateForDisplay(dt.date)
    else FormatDateForDisplay(dt.date) + " " + FormatTime(dt.hour, dt.minute)
  }

  /** Different dates never display alike. */
  lemma {:induction false} DateDisplayInjective(a: Date, b: Date)
    requires ValidDate(a) && ValidDate(b) && FormatDateForDisplay(a) == FormatDateForDisplay(b)
    ensures a == b
  {
    var ra, rb := FormatDateForDisplay(a), FormatDateForDisplay(b);
    assert ra[..3] == rb[..3];
    assert MonthAbbreviations[a.month - 1] == MonthAbbreviations[b.month - 1];
  }

  /**
   * Display loses nothing at minute precision: a midnight time shows as a
   * bare date, every other time with its hour and minute, so two different
   * timestamps never display alike.
   */
  lemma DisplayInjective(a: Timestamp, b: Timestamp)
    requires FormatForDisplay(a) == FormatForDisplay(b)
    ensures a == b
  {
    var ra, rb := FormatForDisplay(a), FormatForDisplay(b);
    assert ra[..11] == FormatDateForDisplay(a.date);
    assert rb[..11] == FormatDateForDisplay(b.date);
    DateDisplayInjective(a.date, b.date);
    if !IsMidnight(a) {
      assert ra[12..] == FormatTime(a.hour, a.minute);
      assert rb[12..] == FormatTime(b.hour, b.minute);
    }
  }

  /** "yyyy-MM-dd". */
  function FormatIsoDate(d: Date): (r: string)
    requires ValidDate(d)
    ensures ParseIsoDate(r) == Some(d)
  {
    var r := PaddedDigits(d.year, 4) + "-" + PaddedDigits(d.month, 2) + "-" + PaddedDigits(d.day, 2);
    assert r[..4] == PaddedDigits(d.year, 4);
    assert r[5..7] == PaddedDigits(d.month, 2);
    assert r[8..] == PaddedDigits(d.day, 2);
    PaddedDigitsValue(d.year, 4);
    PaddedDigitsValue(d.month, 2);
    PaddedDigitsValue(d.day, 2);
    r
  }

  /** yyyy-MM-dd accepts nothing but the text FormatIsoDate writes for the date it reads. */
  lemma IsoDateCanonical(s: string)
    requires ParseIsoDate(s).Some?
    ensures s == FormatIsoDate(ParseIsoDate(s).value)
  {
    var d := ParseIsoDate(s).value;
    PaddedOfDigits(s[..4]);
    PaddedOfDigits(s[5..7]);
    PaddedOfDigits(s[8..]);
    assert d == Date(DigitsValue(s[..4]), DigitsValue(s[5..7]), DigitsValue(s[8..]));
    assert s == s[..4] + "-" + s[5..7] + "-" + s[8..];
  }

  /** DateTimeUtil.STORAGE_DATE_TIME, "yyyy-MM-dd HHmm": always with the time of day. */
  function FormatStorage(dt: Timestamp): (r: string)
    ensures |r| == 15 && AllDigits(r[..4]) && AllDigits(r[11..])
  {
    FormatIsoDate(dt.date) + " " + FormatCompactTime(dt.hour, dt.minute)
  }

  /** Parsing with STORAGE_DATE_TIME, which is the IsoCompact pattern. */
  function ParseStorage(s: string): (r: Option<Timestamp>)
    ensures r.Some? ==> |s| == 15
  {
    AsTimestamp(Apply(IsoCompact, s))
  }

  /** The storage format reads back every timestamp it writes. */
  lemma StorageRoundTrip(dt: Timestamp)
    ensures ParseStorage(FormatStorage(dt)) == Some(dt)
  {
    var s := FormatStorage(dt);
    assert s[..10] == FormatIsoDate(dt.date);
    assert s[11..] == FormatCompactTime(dt.hour, dt.minute);
    CompactTimeRoundTrip(dt.hour, dt.minute);
  }

  /** What the storage format writes, the user-facing resolver also accepts unchanged. */
  lemma ResolverReadsStorageFormat(dt: Timestamp)
    ensures ParseUserDateTime(FormatStorage(dt)) == Some(dt)
  {
    StorageRoundTrip(dt);
    var s := FormatStorage(dt);
    assert Trim(s) == s by {
      assert IsDigit(s[0]) && IsDigit(s[14]);
    }
  }

  /** Slash-free texts joined with two slashes split back into themselves. */
  lemma SlashFieldsOf(a: string, b: string, c: string)
    requires '/' !in a && '/' !in b
    ensures SlashFields(a + "/" + b + "/" + c) == Some((a, b, c))
  {
    var s := a + "/" + b + "/" + c;
    FirstCharIndex(s, '/', |a|);
    var rest := s[|a| + 1..];
    assert rest == b + "/" + c;
    FirstCharIndex(rest, '/', |b|);
    assert s[..|a|] == a && rest[..|b|] == b && rest[|b| + 1..] == c;
  }

  /**
   * The converse of ParseDmyDate's contract: a day, a month and a four-digit
   * year, in that order and separated by slashes, read as that date.
   */
  lemma DmyDateReads(day: string, month: string, year: string, d: Date)
    requires DayMonthYear((day, month, year), d) && ValidDate(d)
    ensures ParseDmyDate(day + "/" + month + "/" + year) == Some(d)
  {
    SlashFieldsOf(day, month, year);
  }

  /** "d/M/yyyy" as a person writes it: the day and month without leading zeros. */
  function DayFirstText(d: Date): (r: string)
    requires ValidDate(d)
    ensures ParseDmyDate(r) == Some(d)
    ensures r != [] && IsDigit(r[0]) && IsDigit(r[|r| - 1]) && ' ' !in r
  {
    var day, month, year := NatToString(d.day), NatToString(d.month), PaddedDigits(d.year, 4);
    NatToStringBelow100(d.day);
    NatToStringBelow100(d.month);
    NatToStringValue(d.day);
    NatToStringValue(d.month);
    PaddedDigitsValue(d.year, 4);
    DmyDateReads(day, month, year, d);
    var r := day + "/" + month + "/" + year;
    assert r[0] == day[0] && r[|r| - 1] == year[3];
    r
  }

  /** A text with a single blank splits there into its two halves. */
  lemma HalvesOf(date: string, time: string)
    requires ' ' !in date
    ensures ' ' in date + " " + time && DmyHalves(date + " " + time) == (date, time)
  {
    var s := date + " " + time;
    FirstCharIndex(s, ' ', |date|);
    assert s[..|date|] == date && s[|date| + 1..] == time;
  }

  /** A text that starts and ends with a digit is left alone by trim. */
  lemma DigitEndsTrimmed(s: string)
    requires s != [] && IsDigit(s[0]) && IsDigit(s[|s| - 1])
    ensures Trim(s) == s
  {
    assert IsTrimmed(s);
  }

  /** "yyyy-MM-dd HH:mm" reads back every timestamp written in it. */
  lemma ResolverReadsIsoColon(dt: Timestamp)
    ensures ParseUserDateTime(FormatIsoDate(dt.date) + " " + FormatTime(dt.hour, dt.minute)) == Some(dt)
  {
    var date, time := FormatIsoDate(dt.date), FormatTime(dt.hour, dt.minute);
    var s := date + " " + time;
    assert |date| == 10 by {
      assert ParseIsoDate(date).Some?;
    }
    assert s[..10] == date && s[10] == ' ' && s[11..] == time;
    ColonTimeRoundTrip(dt.hour, dt.minute);
    assert Apply(IsoColon, s) == Some(dt);
    DigitEndsTrimmed(s);
    OrderFreeIf(s, IsoColon, dt);
  }

  /** "d/M/yyyy HHmm" reads the day, month and year, then the hour and minute, of every timestamp. */
  lemma ResolverReadsDmyCompact(dt: Timestamp)
    ensures ParseUserDateTime(DayFirstText(dt.date) + " " + FormatCompactTime(dt.hour, dt.minute)) == Some(dt)
  {
    var date, time := DayFirstText(dt.date), FormatCompactTime(dt.hour, dt.minute);
    var s := date + " " + time;
    HalvesOf(date, time);
    CompactTimeRoundTrip(dt.hour, dt.minute);
    ApplyDmyCompact(s, date, time);
    assert s[0] == date[0] && s[|s| - 1] == time[3];
    DigitEndsTrimmed(s);
    OrderFreeIf(s, DmyCompact, dt);
  }

  /** "d/M/yyyy HH:mm" reads the day, month and year, then the hour and minute, of every timestamp. */
  lemma ResolverReadsDmyColon(dt: Timestamp)
    ensures ParseUserDateTime(DayFirstText(dt.date) + " " + FormatTime(dt.hour, dt.minute)) == Some(dt)
  {
    var date, time := DayFirstText(dt.date), FormatTime(dt.hour, dt.minute);
    var s := date + " " + time;
    HalvesOf(date, time);
    ColonTimeRoundTrip(dt.hour, dt.minute);
    ApplyDmyColon(s, date, time);
    assert s[0] == date[0] && s[|s| - 1] == time[4];
    DigitEndsTrimmed(s);
    OrderFreeIf(s, DmyColon, dt);
  }

  /** A bare "yyyy-MM-dd" date resolves to the start of that day, for every date. */
  lemma ResolverReadsIsoDate(d: Date)
    requires ValidDate(d)
    ensures ParseUserDateTime(FormatIsoDate(d)) == Some(AtStartOfDay(d))
  {
    var s := FormatIsoDate(d);
    assert s == PaddedDigits(d.year, 4) + "-" + PaddedDigits(d.month, 2) + "-" + PaddedDigits(d.day, 2);
    assert s[0] == PaddedDigits(d.year, 4)[0] && s[9] == PaddedDigits(d.day, 2)[1];
    DigitEndsTrimmed(s);
    DateOnlyIsMidnight(s, d);
  }

  /** A bare "d/M/yyyy" date resolves to the start of that day, for every date. */
  lemma ResolverReadsDmyDate(d: Date)
    requires ValidDate(d)
    ensures ParseUserDateTime(DayFirstText(d)) == Some(AtStartOfDay(d))
  {
    DigitEndsTrimmed(DayFirstText(d));
    DateOnlyIsMidnight(DayFirstText(d), d);
  }

  // ------------------------------------------------------------ worked examples

  lemma ExampleDigits()
    ensures DigitsValue("2025") == 2025 && DigitsValue("01") == 1 && DigitsValue("15") == 15
    ensures DigitsValue("1") == 1 && DigitsValue("18") == 18 && DigitsValue("00") == 0
  {
    FourDigits(2025);
    TwoDigits(1);
    TwoDigits(15);
    assert PaddedDigits(1, 1) == "1";
    TwoDigits(18);
    TwoDigits(0);
    PaddedDigitsValue(2025, 4);
    PaddedDigitsValue(1, 2);
    PaddedDigitsValue(15, 2);
    PaddedDigitsValue(1, 1);
    PaddedDigitsValue(18, 2);
    PaddedDigitsValue(0, 2);
  }

  /** "15/1/2025" reads as 15 January 2025: d and M take as many digits as are there. */
  lemma DmyDateExample()
    ensures ParseDmyDate("15/1/2025") == Some(Date(2025, 1, 15))
  {
    DmyFieldsExample();
    assert "15/1/2025" == "15" + "/" + "1" + "/" + "2025";
    DmyDateReads("15", "1", "2025", Date(2025, 1, 15));
  }

  lemma DmyFieldsExample()
    ensures IsVariableField("15") && IsVariableField("1") && AllDigits("2025")
    ensures Validated(DigitsValue("2025"), DigitsValue("1"), DigitsValue("15")) == Some(Date(2025, 1, 15))
  {
    ExampleDigits();
    assert ValidDate(Date(2025, 1, 15));
  }

  /** The storage form is the first pattern's. */
  lemma IsoCompactExample()
    ensures ParseUserDateTime("2025-01-15 1800") == Some(DateTime(Date(2025, 1, 15), 18, 0))
  {
    StorageFormatExample();
    ResolverReadsStorageFormat(DateTime(Date(2025, 1, 15), 18, 0));
  }

  lemma StorageFormatExample()
    ensures FormatStorage(DateTime(Date(2025, 1, 15), 18, 0)) == "2025-01-15 1800"
  {
    IsoDateFormatExample();
    TwoDigits(18);
    TwoDigits(0);
    assert FormatCompactTime(18, 0) == "1800";
    assert "2025-01-15" + " " + "1800" == "2025-01-15 1800";
  }

  /** Blanks around the text are trimmed away first: "  2025-01-15 1800  " reads as the text inside. */
  lemma PaddedInputIgnored(a: string, s: string, b: string)
    requires AllTrimSpace(a) && IsTrimmed(s) && s != [] && AllTrimSpace(b)
    ensures ParseUserDateTime(a + s + b) == ParseUserDateTime(s)
  {
    TrimPadded(a, s, b);
    ParseUserDateTimeTrims(a + s + b);
    TrimIdempotent(s);
  }

  /** "2025-01-15" is the ISO form of 15 January 2025. */
  lemma IsoDateExample()
    ensures ParseIsoDate("2025-01-15") == Some(Date(2025, 1, 15))
  {
    IsoDateFormatExample();
  }

  lemma IsoDateFormatExample()
    ensures FormatIsoDate(Date(2025, 1, 15)) == "2025-01-15"
  {
    FourDigits(2025);
    TwoDigits(1);
    TwoDigits(15);
  }

  lemma IsoColonExample()
    ensures ParseUserDateTime("2025-01-15 18:00") == Some(DateTime(Date(2025, 1, 15), 18, 0))
  {
    IsoDateFormatExample();
    assert FormatTime(18, 0) == "18:00" by {
      TwoDigits(18);
      TwoDigits(0);
    }
    assert "2025-01-15" + " " + "18:00" == "2025-01-15 18:00";
    ResolverReadsIsoColon(DateTime(Date(2025, 1, 15), 18, 0));
  }

  lemma DmyCompactExampleHalves()
    ensures ' ' in "15/1/2025 1800" && DmyHalves("15/1/2025 1800") == ("15/1/2025", "1800")
  {
    var s := "15/1/2025 1800";
    FirstCharIndex(s, ' ', 9);
    assert s[..9] == "15/1/2025" && s[10..] == "1800";
  }

  lemma DmyCompactExampleTime()
    ensures ParseCompactTime("1800") == Some((18, 0))
  {
    ExampleDigits();
    var t: string := "1800";
    assert t[..2] == "18" && t[2..] == "00";
  }

  lemma DmyCompactExampleApply()
    ensures Apply(DmyCompact, "15/1/2025 1800") == Some(DateTime(Date(2025, 1, 15), 18, 0))
  {
    var s := "15/1/2025 1800";
    DmyCompactExampleHalves();
    DmyCompactExampleTime();
    DmyDateExample();
    ApplyDmyCompact(s, "15/1/2025", "1800");
  }

  lemma ApplyDmyCompact(s: string, date: string, time: string)
    requires ' ' in s && DmyHalves(s) == (date, time)
    ensures Apply(DmyCompact, s) == Combine(ParseDmyDate(date), ParseCompactTime(time))
  {
    assert Apply(DmyCompact, s) == DmyDateTime(s, false);
  }

  lemma DmyCompactExample()
    ensures ParseUserDateTime("15/1/2025 1800") == Some(DateTime(Date(2025, 1, 15), 18, 0))
  {
    var s := "15/1/2025 1800";
    DmyCompactExampleApply();
    assert Trim(s) == s by {
      assert IsTrimmed(s);
    }
    OrderFreeIf(s, DmyCompact, DateTime(Date(2025, 1, 15), 18, 0));
  }

  lemma DmyColonExampleHalves()
    ensures ' ' in "15/1/2025 18:00" && DmyHalves("15/1/2025 18:00") == ("15/1/2025", "18:00")
  {
    var s := "15/1/2025 18:00";
    FirstCharIndex(s, ' ', 9);
    assert s[..9] == "15/1/2025" && s[10..] == "18:00";
  }

  lemma DmyColonExampleTime()
    ensures ParseColonTime("18:00") == Some((18, 0))
  {
    ExampleDigits();
    var t: string := "18:00";
    assert t[..2] == "18" && t[3..] == "00";
  }

  lemma DmyColonExampleApply()
    ensures Apply(DmyColon, "15/1/2025 18:00") == Some(DateTime(Date(2025, 1, 15), 18, 0))
  {
    var s := "15/1/2025 18:00";
    DmyColonExampleHalves();
    DmyColonExampleTime();
    DmyDateExample();
    ApplyDmyColon(s, "15/1/2025", "18:00");
  }

  lemma ApplyDmyColon(s: string, date: string, time: string)
    requires ' ' in s && DmyHalves(s) == (date, time)
    ensures Apply(DmyColon, s) == Combine(ParseDmyDate(date), ParseColonTime(time))
  {
    assert Apply(DmyColon, s) == DmyDateTime(s, true);
  }

  lemma DmyColonExample()
    ensures ParseUserDateTime("15/1/2025 18:00") == Some(DateTime(Date(2025, 1, 15), 18, 0))
  {
    var s := "15/1/2025 18:00";
    DmyColonExampleApply();
    assert Trim(s) == s by {
      assert IsTrimmed(s);
    }
    OrderFreeIf(s, DmyColon, DateTime(Date(2025, 1, 15), 18, 0));
  }

  lemma IsoDateOnlyExample()
    ensures ParseUserDateTime("2025-01-15") == Some(AtStartOfDay(Date(2025, 1, 15)))
  {
    var iso: string := "2025-01-15";
    assert Trim(iso) == iso by {
      assert IsTrimmed(iso);
    }
    IsoDateExample();
    DateOnlyIsMidnight(iso, Date(2025, 1, 15));
  }

  lemma DmyDateOnlyExample()
    ensures ParseUserDateTime("15/1/2025") == Some(AtStartOfDay(Date(2025, 1, 15)))
  {
    assert Trim("15/1/2025") == "15/1/2025" by {
      assert IsTrimmed("15/1/2025");
    }
    DmyDateExample();
    DateOnlyIsMidnight("15/1/2025", Date(2025, 1, 15));
  }

  lemma InvalidDmyDateExample()
    ensures ParseDmyDate("2025/01/15") == None
  {
    assert "2025/01/15" == "2025" + "/" + "01" + "/" + "15";
    SlashFieldsOf("2025", "01", "15");
  }

  /** Slashes in year-first order are refused. */
  lemma SlashedIsoExampleHalves()
    ensures DmyHalves("2025/01/15 1800") == ("2025/01/15", "1800")
  {
    var s := "2025/01/15 1800";
    FirstCharIndex(s, ' ', 10);
    assert s[..10] == "2025/01/15" && s[11..] == "1800";
  }

  lemma SlashedIsoExample()
    ensures ParseUserDateTime("2025/01/15 1800") == None
  {
    var s := "2025/01/15 1800";
    assert Trim(s) == s by {
      assert IsTrimmed(s);
    }
    forall p ensures Apply(p, s) == None {
      SlashedIsoExampleHalves();
      if p == DmyCompact {
        InvalidDmyDateExample();
      } else {
        assert s[4] == '/' && s[10] == ' ' && |s| == 15;
        assert !Shape(p, s);
      }
    }
    NoPatternApplies(s);
  }

  /** Text that is no date at all is refused. */
  lemma NotADateExample()
    ensures ParseUserDateTime("not-a-date") == None
  {
    var n := "not-a-date";
    assert Trim(n) == n;
    assert n[4] == 'a' && ' ' !in n && '/' !in n;
    AbsentCharIndex(n, '/');
    assert ParseDmyDate(n) == None;
    forall p ensures Apply(p, n) == None {
      assert p == DmyDate || !Shape(p, n);
    }
  }

  lemma JanuaryDisplayExample()
    ensures FormatDateForDisplay(Date(2025, 1, 15)) == "Jan 15 2025"
  {
    FourDigits(2025);
    TwoDigits(15);
  }

  /** Midnight shows as a bare date. */
  lemma MidnightDisplayExample()
    ensures FormatForDisplay(DateTime(Date(2025, 1, 15), 0, 0)) == "Jan 15 2025"
  {
    JanuaryDisplayExample();
  }

  /** Any other minute shows with its time. */
  lemma TimeDisplayExample()
    ensures FormatForDisplay(DateTime(Date(2025, 1, 15), 18, 30)) == "Jan 15 2025 18:30"
  {
    JanuaryDisplayExample();
    EveningTimeExample();
  }

  lemma EveningTimeExample()
    ensures FormatTime(18, 30) == "18:30"
  {
    TwoDigits(18);
    TwoDigits(30);
  }

  lemma DateDisplayExample()
    ensures FormatDateForDisplay(Date(2025, 12, 25)) == "Dec 25 2025"
  {
    FourDigits(2025);
    TwoDigits(25);
  }
}

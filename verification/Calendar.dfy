/** PostgreSQL dates, times and timestamps as text (src/proxy/pg_binary.rs). */
module Calendar {
  import opened Wrappers
  import opened Text

  const DAY_MICROS: int := 86_400_000_000
  // Days from 0000-03-01 to 2000-01-01.
  const EPOCH_SHIFT: int := 730_425

  // Integer division as the source language has it: towards zero.
  function TruncDiv(a: int, b: int): int
    requires b > 0
  {
    if a >= 0 then a / b else -((-a) / b)
  }

  datatype Date = Date(year: int, month: int, day: int)

  // The date `z` days after 0000-03-01.
  function CivilFromDays(z: int): Date {
    var era := TruncDiv(if z >= 0 then z else z - 146_096, 146_097);
    var doe := z - era * 146_097;
    var yoe := (doe - doe / 1460 + doe / 36_524 - doe / 146_096) / 365;
    var y := yoe + era * 400;
    var doy := doe - (365 * yoe + yoe / 4 - yoe / 100);
    var mp := (5 * doy + 2) / 153;
    var d := doy - (153 * mp + 2) / 5 + 1;
    var m := if mp < 10 then mp + 3 else mp - 9;
    Date(if m <= 2 then y + 1 else y, m, d)
  }

  // ---- The Gregorian calendar, independently ----

  predicate IsLeap(y: int) {
    y % 4 == 0 && (y % 100 != 0 || y % 400 == 0)
  }

  function MonthLength(y: int, m: int): int {
    if m == 2 then (if IsLeap(y) then 29 else 28)
    else if m in {4, 6, 9, 11} then 30
    else 31
  }

  predicate IsDate(d: Date) {
    1 <= d.month <= 12 && 1 <= d.day <= MonthLength(d.year, d.month)
  }

  function NextDay(d: Date): Date {
    if d.day < MonthLength(d.year, d.month) then d.(day := d.day + 1)
    else if d.month < 12 then Date(d.year, d.month + 1, 1)
    else Date(d.year + 1, 1, 1)
  }

  // Days before the month in a year that starts in March.
  function DaysBefore(month: int): int {
    match month
    case 3 => 0 case 4 => 31 case 5 => 61 case 6 => 92 case 7 => 122 case 8 => 153
    case 9 => 184 case 10 => 214 case 11 => 245 case 12 => 275 case 1 => 306 case _ => 337
  }

  // The first day of the year that starts in March of y.
  function YearStart(y: int): int {
    365 * y + y / 4 - y / 100 + y / 400
  }

  // Days from 0000-03-01 to the date.
  function DaysFromCivil(d: Date): int {
    var y := if d.month <= 2 then d.year - 1 else d.year;
    YearStart(y) + DaysBefore(d.month) + d.day - 1
  }

  // ---- Correctness of the conversion ----

  lemma Era(z: int)
    ensures var era := TruncDiv(if z >= 0 then z else z - 146_096, 146_097); 0 <= z - era * 146_097 < 146_097
  {
  }

  // The two quotients of a day that is counted in centuries, four-year cycles, years and days.
  lemma CycleQuotients(doe: int, c: int, q: int, t: int)
    requires doe == 36_524 * c + 1461 * q + t
    requires 0 <= c <= 3 && 0 <= q <= 24 && 0 <= t <= 1460 && (t == 1460 && q == 24 ==> c == 3)
    ensures doe / 1460 == 25 * c + q + (24 * c + q + t) / 1460
    ensures doe / 36_524 - doe / 146_096 == c
  {
    assert doe == 1460 * (25 * c + q) + (24 * c + q + t);
    assert 1461 * q + t <= 36_524;
  }

  lemma YearByCycles(doe: int, c: int, q: int, s: int, r: int)
    requires doe == 36_524 * c + 1461 * q + 365 * s + r
    requires 0 <= c <= 3 && 0 <= q <= 24 && 0 <= s <= 3 && 0 <= r <= 365
    requires r == 365 ==> s == 3 && (q == 24 ==> c == 3)
    ensures (doe - doe / 1460 + doe / 36_524 - doe / 146_096) / 365 == 100 * c + 4 * q + s
  {
    CycleQuotients(doe, c, q, 365 * s + r);
    var e := (24 * c + q + 365 * s + r) / 1460;
    assert 0 <= e <= 1 && (e == 1 ==> s == 3 && r >= 1);
    assert doe - doe / 1460 + c == 365 * (100 * c + 4 * q + s) + (r - e);
  }

  // Within an era: the year of the era and the day of that year.
  lemma YearOfEra(doe: int)
    requires 0 <= doe < 146_097
    ensures var yoe := (doe - doe / 1460 + doe / 36_524 - doe / 146_096) / 365;
            var doy := doe - (365 * yoe + yoe / 4 - yoe / 100);
            && 0 <= yoe < 400 && 0 <= doy <= 365
            && (doy == 365 ==> (yoe + 1) % 4 == 0 && ((yoe + 1) % 100 != 0 || yoe == 399))
  {
    var c := if doe == 146_096 then 3 else doe / 36_524;
    var inCentury := doe - 36_524 * c;
    var q := inCentury / 1461;
    var inCycle := inCentury - 1461 * q;
    var s := if inCycle == 1460 then 3 else inCycle / 365;
    var r := inCycle - 365 * s;
    YearByCycles(doe, c, q, s, r);
    var yoe := 100 * c + 4 * q + s;
    assert yoe / 100 == c;
    assert yoe / 4 == 25 * c + q;
  }

  lemma MonthOfYear(doy: int)
    requires 0 <= doy <= 365
    ensures var mp := (5 * doy + 2) / 153;
            var d := doy - (153 * mp + 2) / 5 + 1;
            var m := if mp < 10 then mp + 3 else mp - 9;
            && 1 <= m <= 12 && 1 <= d && DaysBefore(m) + d - 1 == doy
            && d <= (if m == 2 then 29 else MonthLength(1, m))
  {
  }

  // Leap years repeat every 400 years.
  lemma LeapRepeats(y: int, era: int)
    ensures IsLeap(y + 400 * era) <==> IsLeap(y)
  {
    assert (y + 400 * era) / 4 == y / 4 + 100 * era;
    assert (y + 400 * era) / 100 == y / 100 + 4 * era;
    assert (y + 400 * era) / 400 == y / 400 + era;
  }

  lemma EraShift(yoe: int, era: int)
    requires 0 <= yoe < 400
    ensures YearStart(yoe + 400 * era) == 146_097 * era + YearStart(yoe)
  {
    var y := yoe + 400 * era;
    assert y / 4 == yoe / 4 + 100 * era;
    assert y / 100 == yoe / 100 + 4 * era;
    assert y / 400 == era;
  }

  // The date on day doy of the year that starts in March of y.
  function MarchDate(y: int, doy: int): Date {
    var mp := (5 * doy + 2) / 153;
    var m := if mp < 10 then mp + 3 else mp - 9;
    Date(if m <= 2 then y + 1 else y, m, doy - (153 * mp + 2) / 5 + 1)
  }

  lemma MarchDateCounts(y: int, doy: int)
    requires 0 <= doy <= 365 && (doy == 365 ==> IsLeap(y + 1))
    ensures IsDate(MarchDate(y, doy)) && DaysFromCivil(MarchDate(y, doy)) == YearStart(y) + doy
  {
    MonthOfYear(doy);
  }

  lemma LeapOfEra(yoe: int)
    requires 0 <= yoe < 400
    ensures YearStart(yoe) == 365 * yoe + yoe / 4 - yoe / 100
    ensures (yoe + 1) % 4 == 0 && ((yoe + 1) % 100 != 0 || yoe == 399) ==> IsLeap(yoe + 1)
  {
    assert yoe / 400 == 0;
  }

  // The year within the era and the day within the year that the conversion settles on.
  lemma Parts(z: int) returns (era: int, yoe: int, doy: int)
    ensures CivilFromDays(z) == MarchDate(yoe + era * 400, doy)
    ensures 0 <= yoe < 400 && 0 <= doy <= 365 && z == era * 146_097 + YearStart(yoe) + doy
    ensures doy == 365 ==> IsLeap(yoe + 1)
  {
    hide IsLeap, YearStart;
    era := TruncDiv(if z >= 0 then z else z - 146_096, 146_097);
    Era(z);
    var doe := z - era * 146_097;
    YearOfEra(doe);
    yoe := (doe - doe / 1460 + doe / 36_524 - doe / 146_096) / 365;
    doy := doe - (365 * yoe + yoe / 4 - yoe / 100);
    LeapOfEra(yoe);
  }

  /** The conversion gives a valid Gregorian date and is undone by counting days. */
  lemma CivilIsExact(z: int)
    ensures IsDate(CivilFromDays(z)) && DaysFromCivil(CivilFromDays(z)) == z
  {
    hide CivilFromDays, YearStart, MarchDate, IsDate, DaysFromCivil;
    var era, yoe, doy := Parts(z);
    EraShift(yoe, era);
    LeapRepeats(yoe + 1, era);
    MarchDateCounts(yoe + era * 400, doy);
  }

  lemma QuotientSteps(y: int)
    ensures (y + 1) / 4 == y / 4 + (if (y + 1) % 4 == 0 then 1 else 0)
    ensures (y + 1) / 100 == y / 100 + (if (y + 1) % 100 == 0 then 1 else 0)
    ensures (y + 1) / 400 == y / 400 + (if (y + 1) % 400 == 0 then 1 else 0)
  {
  }

  lemma YearStartSteps(y: int)
    ensures YearStart(y + 1) == YearStart(y) + (if IsLeap(y + 1) then 366 else 365)
  {
    QuotientSteps(y);
    var n := y + 1;
    assert n % 400 == 0 ==> n % 100 == 0;
    assert n % 100 == 0 ==> n % 4 == 0;
  }

  ghost function MarchYear(d: Date): int {
    if d.month <= 2 then d.year - 1 else d.year
  }

  // Counting days is strictly increasing along the calendar.
  lemma NextDayCounts(d: Date)
    requires IsDate(d)
    ensures IsDate(NextDay(d)) && DaysFromCivil(NextDay(d)) == DaysFromCivil(d) + 1
  {
    YearStartSteps(MarchYear(d));
  }

  lemma YearStartIncreases(a: int, b: int)
    requires a < b
    ensures YearStart(a + 1) <= YearStart(b)
    decreases b - a
  {
    if a + 1 < b {
      YearStartSteps(a + 1);
      YearStartIncreases(a + 1, b);
    }
  }

  lemma DayInYear(d: Date)
    requires IsDate(d)
    ensures YearStart(MarchYear(d)) <= DaysFromCivil(d) < YearStart(MarchYear(d) + 1)
  {
    YearStartSteps(MarchYear(d));
  }

  lemma DaysInjective(a: Date, b: Date)
    requires IsDate(a) && IsDate(b) && DaysFromCivil(a) == DaysFromCivil(b)
    ensures a == b
  {
    DayInYear(a);
    DayInYear(b);
    if MarchYear(a) < MarchYear(b) { YearStartIncreases(MarchYear(a), MarchYear(b)); }
    if MarchYear(b) < MarchYear(a) { YearStartIncreases(MarchYear(b), MarchYear(a)); }
    assert DaysBefore(a.month) + a.day == DaysBefore(b.month) + b.day;
    SameYear(a, b);
  }

  lemma SameYear(a: Date, b: Date)
    requires IsDate(a) && IsDate(b) && MarchYear(a) == MarchYear(b)
    requires DaysBefore(a.month) + a.day == DaysBefore(b.month) + b.day
    ensures a == b
  {
    assert a.day <= 31 && b.day <= 31;
  }

  /** Counting days is undone by the conversion, for every date. */
  lemma DaysAreExact(d: Date)
    requires IsDate(d)
    ensures CivilFromDays(DaysFromCivil(d)) == d
  {
    CivilIsExact(DaysFromCivil(d));
    DaysInjective(CivilFromDays(DaysFromCivil(d)), d);
  }

  /** The shift is the server's epoch, 2000-01-01. */
  lemma EpochIsMillennium()
    ensures DaysFromCivil(Date(2000, 1, 1)) == EPOCH_SHIFT && CivilFromDays(EPOCH_SHIFT) == Date(2000, 1, 1)
  {
    hide CivilFromDays;
    DaysAreExact(Date(2000, 1, 1));
  }

  /** The next day number is the next calendar day. */
  lemma CivilSteps(z: int)
    ensures CivilFromDays(z + 1) == NextDay(CivilFromDays(z))
  {
    CivilIsExact(z);
    NextFrom(CivilFromDays(z), z);
  }

  lemma NextFrom(d: Date, z: int)
    requires IsDate(d) && DaysFromCivil(d) == z
    ensures CivilFromDays(z + 1) == NextDay(d)
  {
    NextDayCounts(d);
    ExactAt(NextDay(d), z + 1);
  }

  lemma ExactAt(d: Date, z: int)
    requires IsDate(d) && DaysFromCivil(d) == z
    ensures CivilFromDays(z) == d
  {
    DaysAreExact(d);
  }

  // ---- Text forms ----

  // Minimum width 4, the sign counted.
  function YearText(y: int): string {
    if y >= 10_000 then Decimal(y)
    else if y >= 0 then Padded(y, 4)
    else if y > -1000 then "-" + Padded(-y, 3)
    else "-" + Decimal(-y)
  }

  function DateText(d: Date): string
    requires IsDate(d)
  {
    YearText(d.year) + "-" + Padded(d.month, 2) + "-" + Padded(d.day, 2)
  }

  // For days since 2000-01-01.
  function FormatPgDate(days: int): string {
    CivilIsExact(days + EPOCH_SHIFT);
    DateText(CivilFromDays(days + EPOCH_SHIFT))
  }

  // For microseconds since midnight.
  function FormatPgTime(micros: int): Option<string> {
    if !(0 <= micros < DAY_MICROS) then None
    else
      var us := micros % 1_000_000;
      var totalS := micros / 1_000_000;
      var s := totalS % 60;
      var totalM := totalS / 60;
      var m := totalM % 60;
      var h := totalM / 60;
      Some(TimeText(h, m, s, us))
  }

  function TimeText(h: nat, m: nat, s: nat, us: nat): string {
    var hms := Padded(h, 2) + ":" + Padded(m, 2) + ":" + Padded(s, 2);
    if us == 0 then hms else hms + "." + Padded(us, 6)
  }

  const I32_MIN: int := -0x8000_0000
  const I64_MIN: int := -0x8000_0000_0000_0000

  // The low 32 bits as a signed number.
  function AsI32(n: int): int {
    (n - I32_MIN) % 0x1_0000_0000 + I32_MIN
  }

  // For microseconds since 2000-01-01 00:00:00.
  function FormatPgTimestamp(micros: int, utc: bool): Option<string> {
    var (days, tod) := if micros % DAY_MICROS < 0 then (micros / DAY_MICROS - 1, micros % DAY_MICROS + DAY_MICROS)
                       else (micros / DAY_MICROS, micros % DAY_MICROS);
    match FormatPgTime(tod)
    case None => None
    case Some(time) => Some(FormatPgDate(AsI32(days)) + " " + time + if utc then "+00" else "")
  }

  // ---- The server's side: the ranges in section 8.5 of the PostgreSQL manual ----

  // On the wire, infinity is the greatest number and minus infinity the least.
  const I32_MAX: int := 0x7FFF_FFFF
  const I64_MAX: int := 0x7FFF_FFFF_FFFF_FFFF
  const LAST_DATE_YEAR: int := 5_874_897
  const LAST_TIMESTAMP_YEAR: int := 294_276
  // 0001-01-01 and the first days behind the two last years, in days since 2000-01-01.
  const YEAR_ONE: int := -730_119
  const DATES_END: int := 2_145_031_949
  const TIMESTAMPS_END: int := 106_751_983

  // The day that three number texts name, as days since 2000-01-01; there is no year zero.
  function DateOf(y: string, m: string, d: string, last: int): Option<int> {
    if !AllDigits(y) || !AllDigits(m) || !AllDigits(d) then None
    else
      var date := Date(Value(y), Value(m), Value(d));
      if 1 <= date.year <= last && IsDate(date) then Some(DaysFromCivil(date) - EPOCH_SHIFT) else None
  }

  // Reads YYYY-MM-DD with four or more year digits.
  function ReadDay(s: string, last: int): Option<int> {
    var n := |s|;
    if n < 10 || s[n - 3] != '-' || s[n - 6] != '-' then None
    else DateOf(s[..n - 6], s[n - 5..n - 3], s[n - 2..], last)
  }

  // The number that stands for a text date on the wire.
  function ReadDate(s: string): Option<int> {
    if s == "infinity" then Some(I32_MAX)
    else if s == "-infinity" then Some(I32_MIN)
    else ReadDay(s, LAST_DATE_YEAR)
  }

  function Clock(h: nat, m: nat, s: nat, us: nat): nat {
    ((h * 60 + m) * 60 + s) * 1_000_000 + us
  }

  // The microsecond that the number texts of a time name; us is the text after the point.
  function TimeOf(h: string, m: string, s: string, us: string): Option<int> {
    if !AllDigits(h) || !AllDigits(m) || !AllDigits(s) || !AllDigits(us) then None
    else Some(Clock(Value(h), Value(m), Value(s), Value(us)))
  }

  // Reads HH:MM:SS or HH:MM:SS.ffffff as microseconds since midnight.
  function ReadTime(s: string): Option<int> {
    if |s| != 8 && |s| != 15 then None
    else if s[2] != ':' || s[5] != ':' || (|s| == 15 && s[8] != '.') then None
    else TimeOf(s[..2], s[3..5], s[6..8], if |s| == 8 then "" else s[9..])
  }

  function IndexOf(s: string, c: char): (i: nat)
    ensures i <= |s|
  {
    if s == "" || s[0] == c then 0 else 1 + IndexOf(s[1..], c)
  }

  // A date and a time of day with one space between them, and the UTC suffix if asked for.
  function ReadInstant(s: string, utc: bool): Option<int> {
    var body := if !utc then s else if |s| >= 3 && s[|s| - 3..] == "+00" then s[..|s| - 3] else "";
    var i := IndexOf(body, ' ');
    if i == |body| then None
    else Instant(ReadDay(body[..i], LAST_TIMESTAMP_YEAR), ReadTime(body[i + 1..]))
  }

  // The number that stands for a text timestamp on the wire.
  function ReadTimestamp(s: string, utc: bool): Option<int> {
    if s == "infinity" then Some(I64_MAX)
    else if s == "-infinity" then Some(I64_MIN)
    else ReadInstant(s, utc)
  }

  function Instant(days: Option<int>, tod: Option<int>): Option<int> {
    if days.Some? && tod.Some? then Some(days.value * DAY_MICROS + tod.value) else None
  }

  lemma Pow10Values()
    ensures Pow10(2) == 100 && Pow10(3) == 1000 && Pow10(4) == 10_000 && Pow10(6) == 1_000_000
  {
    assert Pow10(1) == 10;
    assert Pow10(5) == 100_000;
  }

  lemma YearTextReads(y: int)
    ensures |YearText(y)| >= 4
    ensures y >= 0 ==> AllDigits(YearText(y)) && Value(YearText(y)) == y
    ensures y < 0 ==> YearText(y)[0] == '-'
    ensures ' ' !in YearText(y)
  {
    Pow10Values();
    if y >= 10_000 {
      ValueOfDecimal(y);
      DecimalLength(y);
    } else if y >= 0 {
      ValueOfPadded(y, 4);
    } else if y <= -1000 {
      DecimalLength(-y);
    }
  }

  lemma DecimalLength(n: nat)
    requires n >= 1000
    ensures |Decimal(n)| >= 4
  {
    assert |Decimal(n / 10 / 10)| >= 1;
    assert n / 10 >= 10 && n / 10 / 10 >= 10;
  }

  // Where a year begins.
  lemma FromYear(d: Date, z: int, y: int)
    requires IsDate(d) && DaysFromCivil(d) == z
    ensures d.year >= y <==> z >= YearStart(y - 1) + 306
  {
    DayInYear(d);
    var m := MarchYear(d);
    if m > y - 1 { YearStartIncreases(y - 1, m); }
    if m < y - 1 { YearStartIncreases(m, y - 1); }
    YearStartSteps(y - 1);
  }

  // The years that text dates have, for a reader that ends with the year `last`.
  lemma YearsRead(d: Date, z: int, last: int)
    requires IsDate(d) && DaysFromCivil(d) == z
    ensures 1 <= d.year <= last <==> 306 <= z < YearStart(last) + 306
  {
    FromYear(d, z, 1);
    FromYear(d, z, last + 1);
    assert YearStart(0) == 0;
  }

  // Cuts a date text at its dashes.
  lemma DateCuts(y: string, m: string, d: string, last: int)
    requires |y| >= 4 && |m| == 2 && |d| == 2
    ensures ReadDay(y + "-" + m + "-" + d, last) == DateOf(y, m, d, last)
  {
    var s := y + "-" + m + "-" + d;
    var n := |s|;
    assert s[..n - 6] == y;
    assert s[n - 5..n - 3] == m;
    assert s[n - 2..] == d;
    assert s[n - 3] == '-' && s[n - 6] == '-';
  }

  lemma DateOfTexts(d: Date, y: string, m: string, day: string, last: int)
    requires IsDate(d) && y != ""
    requires AllDigits(m) && AllDigits(day) && Value(m) == d.month && Value(day) == d.day
    requires d.year >= 0 ==> AllDigits(y) && Value(y) == d.year
    requires d.year < 0 ==> y[0] == '-'
    ensures DateOf(y, m, day, last) == if 1 <= d.year <= last then Some(DaysFromCivil(d) - EPOCH_SHIFT) else None
  {
    if d.year < 0 {
      assert !AllDigits(y);
    }
  }

  lemma TwoDigits(n: nat)
    requires n < 100
    ensures Value(Padded(n, 2)) == n && ' ' !in Padded(n, 2)
  {
    Pow10Values();
    ValueOfPadded(n, 2);
  }

  lemma SixDigits(n: nat)
    requires n < 1_000_000
    ensures Value(Padded(n, 6)) == n
  {
    Pow10Values();
    ValueOfPadded(n, 6);
  }

  lemma DateTextReads(d: Date, last: int)
    requires IsDate(d)
    ensures ReadDay(DateText(d), last) == if 1 <= d.year <= last then Some(DaysFromCivil(d) - EPOCH_SHIFT) else None
    ensures ' ' !in DateText(d) && |DateText(d)| >= 10
  {
    YearTextReads(d.year);
    TwoDigits(d.month);
    TwoDigits(d.day);
    DateCuts(YearText(d.year), Padded(d.month, 2), Padded(d.day, 2), last);
    DateOfTexts(d, YearText(d.year), Padded(d.month, 2), Padded(d.day, 2), last);
  }

  // What reading a printed date gives, for the date on day z.
  lemma DateOnDay(z: int, d: Date, last: int)
    requires d == CivilFromDays(z)
    ensures IsDate(d)
    ensures ReadDay(DateText(d), last) == if 306 <= z < YearStart(last) + 306 then Some(z - EPOCH_SHIFT) else None
    ensures ' ' !in DateText(d) && |DateText(d)| >= 10
  {
    CivilIsExact(z);
    YearsRead(d, z, last);
    DateTextReads(d, last);
  }

  lemma DayReadsBack(days: int, last: int)
    ensures ReadDay(FormatPgDate(days), last)
         == if YEAR_ONE <= days < YearStart(last) + 306 - EPOCH_SHIFT then Some(days) else None
    ensures ' ' !in FormatPgDate(days) && |FormatPgDate(days)| >= 10
  {
    DateOnDay(days + EPOCH_SHIFT, CivilFromDays(days + EPOCH_SHIFT), last);
  }

  /** A printed date is read as the same day exactly from year one to the last year the server has.
      Earlier days are printed with a year number that text dates do not have. */
  lemma DateReadsBack(days: int)
    ensures ReadDate(FormatPgDate(days)) == if -730_119 <= days < 2_145_031_949 then Some(days) else None
  {
    DayReadsBack(days, LAST_DATE_YEAR);
    LastYears();
  }

  lemma LastYears()
    ensures YearStart(LAST_DATE_YEAR) + 306 - EPOCH_SHIFT == DATES_END
    ensures YearStart(LAST_TIMESTAMP_YEAR) + 306 - EPOCH_SHIFT == TIMESTAMPS_END
  {
  }

  // Cuts a time text at its colons and its point.
  lemma TimeCuts(h: string, m: string, s: string, us: string)
    requires |h| == 2 && |m| == 2 && |s| == 2 && |us| == 6
    ensures ReadTime(h + ":" + m + ":" + s) == TimeOf(h, m, s, "")
    ensures ReadTime(h + ":" + m + ":" + s + "." + us) == TimeOf(h, m, s, us)
  {
    var hms := h + ":" + m + ":" + s;
    assert hms[..2] == h && hms[3..5] == m && hms[6..8] == s;
    var long := hms + "." + us;
    assert long[..2] == h && long[3..5] == m && long[6..8] == s;
    assert long[9..] == us;
  }

  // What four number texts of known values name.
  lemma TimeOfTexts(ht: string, mt: string, st: string, ut: string, h: nat, m: nat, s: nat, us: nat)
    requires AllDigits(ht) && AllDigits(mt) && AllDigits(st) && AllDigits(ut)
    requires Value(ht) == h && Value(mt) == m && Value(st) == s && Value(ut) == us
    ensures TimeOf(ht, mt, st, ut) == Some(Clock(h, m, s, us))
  {
  }

  lemma NoDigits()
    ensures AllDigits("") && Value("") == 0
  {
  }

  // The text of a time, with or without a fraction.
  lemma TimeTextReads(h: nat, m: nat, s: nat, us: nat)
    requires h < 100 && m < 100 && s < 100 && us < 1_000_000
    ensures ReadTime(TimeText(h, m, s, us)) == Some(Clock(h, m, s, us))
  {
    var ht, mt, st, ut := Padded(h, 2), Padded(m, 2), Padded(s, 2), Padded(us, 6);
    assert Value(ht) == h && Value(mt) == m && Value(st) == s by {
      TwoDigits(h);
      TwoDigits(m);
      TwoDigits(s);
    }
    TimeCuts(ht, mt, st, ut);
    if us == 0 {
      NoDigits();
      TimeOfTexts(ht, mt, st, "", h, m, s, 0);
    } else {
      SixDigits(us);
      TimeOfTexts(ht, mt, st, ut, h, m, s, us);
    }
  }

  lemma ClockSplits(micros: int, totalS: int, totalM: int)
    requires 0 <= micros < DAY_MICROS && totalS == micros / 1_000_000 && totalM == totalS / 60
    ensures 0 <= totalM / 60 < 24
    ensures Clock(totalM / 60, totalM % 60, totalS % 60, micros % 1_000_000) == micros
  {
    assert totalS == (totalM / 60 * 60 + totalM % 60) * 60 + totalS % 60;
  }

  /** A printed time of day reads back as the same microsecond. */
  lemma TimeReadsBack(micros: int)
    requires 0 <= micros < DAY_MICROS
    ensures FormatPgTime(micros).Some? && ReadTime(FormatPgTime(micros).value) == Some(micros)
  {
    var us, totalS := micros % 1_000_000, micros / 1_000_000;
    var s, totalM := totalS % 60, totalS / 60;
    var m, h := totalM % 60, totalM / 60;
    ClockSplits(micros, totalS, totalM);
    TimeTextReads(h, m, s, us);
  }

  lemma IndexOfSpace(a: string, b: string)
    requires ' ' !in a
    ensures IndexOf(a + " " + b, ' ') == |a|
  {
    if a == "" {
      assert a + " " + b == " " + b;
    } else {
      assert (a + " " + b)[1..] == a[1..] + " " + b;
      IndexOfSpace(a[1..], b);
    }
  }

  lemma TimestampTextReads(date: string, time: string, utc: bool)
    requires ' ' !in date
    ensures ReadInstant(date + " " + time + (if utc then "+00" else ""), utc)
         == Instant(ReadDay(date, LAST_TIMESTAMP_YEAR), ReadTime(time))
  {
    var body := date + " " + time;
    var text := body + (if utc then "+00" else "");
    if utc {
      assert text[|text| - 3..] == "+00" && text[..|text| - 3] == body;
    } else {
      assert text == body;
    }
    IndexOfSpace(date, time);
    assert body[..|date|] == date && body[|date| + 1..] == time;
  }

  lemma SplitMicros(micros: int)
    requires I64_MIN <= micros <= I64_MAX
    ensures AsI32(micros / DAY_MICROS) == micros / DAY_MICROS
    ensures 0 <= micros % DAY_MICROS < DAY_MICROS
    ensures YEAR_ONE <= micros / DAY_MICROS < TIMESTAMPS_END
       <==> YEAR_ONE * DAY_MICROS <= micros < TIMESTAMPS_END * DAY_MICROS
    ensures micros / DAY_MICROS * DAY_MICROS + micros % DAY_MICROS == micros
  {
    assert -110_000_000 <= micros / DAY_MICROS < 110_000_000;
  }

  lemma TimestampText(micros: int, utc: bool, date: string, time: string)
    requires I64_MIN <= micros <= I64_MAX
    requires date == FormatPgDate(micros / DAY_MICROS) && FormatPgTime(micros % DAY_MICROS) == Some(time)
    ensures FormatPgTimestamp(micros, utc) == Some(date + " " + time + if utc then "+00" else "")
  {
    SplitMicros(micros);
  }

  lemma TimestampParts(micros: int, utc: bool) returns (date: string, time: string)
    requires I64_MIN <= micros <= I64_MAX
    ensures FormatPgTimestamp(micros, utc) == Some(date + " " + time + if utc then "+00" else "")
    ensures ' ' !in date && |date| >= 10
    ensures ReadTime(time) == Some(micros % DAY_MICROS)
    ensures ReadDay(date, LAST_TIMESTAMP_YEAR)
         == if YEAR_ONE * DAY_MICROS <= micros < TIMESTAMPS_END * DAY_MICROS then Some(micros / DAY_MICROS) else None
  {
    SplitMicros(micros);
    TimeReadsBack(micros % DAY_MICROS);
    DayReadsBack(micros / DAY_MICROS, LAST_TIMESTAMP_YEAR);
    LastYears();
    date, time := FormatPgDate(micros / DAY_MICROS), FormatPgTime(micros % DAY_MICROS).value;
    TimestampText(micros, utc, date, time);
  }

  lemma InstantOf(micros: int, days: Option<int>)
    requires days.Some? ==> days.value == micros / DAY_MICROS
    ensures Instant(days, Some(micros % DAY_MICROS)) == (if days.Some? then Some(micros) else None)
  {
  }

  /** Every 64-bit microsecond count is printed, and the text is read as the same count exactly from year
      one to the last year the server has for timestamps. */
  lemma TimestampReadsBack(micros: int, utc: bool)
    requires I64_MIN <= micros <= I64_MAX
    ensures FormatPgTimestamp(micros, utc).Some?
    ensures ReadTimestamp(FormatPgTimestamp(micros, utc).value, utc)
         == if -730_119 * 86_400_000_000 <= micros < 106_751_983 * 86_400_000_000 then Some(micros) else None
  {
    var date, time := TimestampParts(micros, utc);
    InstantOf(micros, ReadDay(date, LAST_TIMESTAMP_YEAR));
    TimestampTextReads(date, time, utc);
    assert |FormatPgTimestamp(micros, utc).value| > 10;
  }

  /** How the parts are put together, for the first microsecond of the server's epoch and the last one before it. */
  lemma EpochIsPrinted()
    ensures FormatPgTimestamp(0, false)
         == Some("2000" + "-" + "01" + "-" + "01" + " " + ("00" + ":" + "00" + ":" + "00"))
    ensures FormatPgTimestamp(-1, true)
         == Some("1999" + "-" + "12" + "-" + "31" + " " + ("23" + ":" + "59" + ":" + "59" + "." + "999999") + "+00")
  {
    hide Padded, CivilFromDays, YearText;
    EpochDates();
    SmallParts();
    LastYear();
    LastMicros();
    assert FormatPgDate(0) == "2000" + "-" + "01" + "-" + "01";
    assert FormatPgDate(-1) == "1999" + "-" + "12" + "-" + "31";
    assert FormatPgTime(0) == Some("00" + ":" + "00" + ":" + "00");
    assert FormatPgTime(86_399_999_999) == Some("23" + ":" + "59" + ":" + "59" + "." + "999999");
    assert AsI32(0) == 0 && AsI32(-1) == -1;
    var whole := "2000" + "-" + "01" + "-" + "01" + " " + ("00" + ":" + "00" + ":" + "00");
    assert whole + "" == whole;
  }

  lemma EpochDates()
    ensures CivilFromDays(EPOCH_SHIFT) == Date(2000, 1, 1) && CivilFromDays(EPOCH_SHIFT - 1) == Date(1999, 12, 31)
  {
    EpochIsMillennium();
    DaysAreExact(Date(1999, 12, 31));
  }

  lemma SmallParts()
    ensures Padded(0, 2) == "00" && Padded(1, 2) == "01" && Padded(12, 2) == "12" && Padded(31, 2) == "31"
    ensures Padded(23, 2) == "23" && Padded(59, 2) == "59"
  {
    assert Padded(0, 1) == "0" && Padded(1, 1) == "1" && Padded(3, 1) == "3" && Padded(2, 1) == "2";
    assert Padded(5, 1) == "5";
  }

  lemma LastYear()
    ensures YearText(2000) == "2000" && YearText(1999) == "1999"
  {
    assert Padded(2, 1) == "2" && Padded(20, 2) == "20" && Padded(200, 3) == "200";
    assert Padded(1, 1) == "1" && Padded(19, 2) == "19" && Padded(199, 3) == "199";
  }

  lemma LastMicros()
    ensures Padded(999_999, 6) == "999999"
  {
    assert Padded(9, 1) == "9" && Padded(99, 2) == "99" && Padded(999, 3) == "999";
    assert Padded(9999, 4) == "9999" && Padded(99_999, 5) == "99999";
  }

  /** The wire writes the infinities as the extreme numbers; they are printed as days that no date has. */
  lemma InfinitiesAreLost(utc: bool)
    ensures ReadDate("infinity") == Some(I32_MAX) && ReadDate(FormatPgDate(I32_MAX)) == None
    ensures ReadDate("-infinity") == Some(I32_MIN) && ReadDate(FormatPgDate(I32_MIN)) == None
    ensures ReadTimestamp("infinity", utc) == Some(I64_MAX) && FormatPgTimestamp(I64_MAX, utc).Some?
    ensures ReadTimestamp(FormatPgTimestamp(I64_MAX, utc).value, utc) == None
    ensures ReadTimestamp("-infinity", utc) == Some(I64_MIN) && FormatPgTimestamp(I64_MIN, utc).Some?
    ensures ReadTimestamp(FormatPgTimestamp(I64_MIN, utc).value, utc) == None
  {
    DateReadsBack(I32_MAX);
    DateReadsBack(I32_MIN);
    TimestampReadsBack(I64_MAX, utc);
    TimestampReadsBack(I64_MIN, utc);
  }
}

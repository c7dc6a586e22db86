/** The Cassandra connector's dates and timestamps: days and milliseconds since 1970-01-01
    as proleptic Gregorian calendar text. */
module Calendar {
  import opened Text
  import opened Decimal

  datatype Date = Date(year: int, month: int, day: int)

  /** `civil_from_days`: the closed form over 400-year eras of years that start on 1 March. */
  function CivilFromDays(days: int): Date {
    var z := days + 719_468;
    EraDate(z / 146_097, z % 146_097)
  }

  /** Day `doe` of an era. */
  function EraDate(era: int, doe: int): Date {
    var yoe := YearOfEra(doe);
    MarchDateOf(yoe + era * 400, doe - EraYearStart(yoe))
  }

  function YearOfEra(doe: int): int {
    (doe - doe / 1_460 + doe / 36_524 - doe / 146_096) / 365
  }

  /** The first day of March year `yoe` of an era. */
  function EraYearStart(yoe: int): int {
    365 * yoe + yoe / 4 - yoe / 100
  }

  /** The date `doy` days after 1 March of `year`. */
  function MarchDateOf(year: int, doy: int): Date {
    var mp := (5 * doy + 2) / 153;
    var day := doy - (153 * mp + 2) / 5 + 1;
    var month := if mp < 10 then mp + 3 else mp - 9;
    Date(if month <= 2 then year + 1 else year, month, day)
  }

  // ----- the Gregorian calendar, as a rule and as a day count

  predicate IsLeap(year: int) {
    year % 4 == 0 && (year % 100 != 0 || year % 400 == 0)
  }

  function DaysInMonth(year: int, month: int): int {
    match month
    case 4 | 6 | 9 | 11 => 30
    case 2 => if IsLeap(year) then 29 else 28
    case _ => 31
  }

  predicate ValidDate(d: Date) {
    1 <= d.month <= 12 && 1 <= d.day <= DaysInMonth(d.year, d.month)
  }

  /** The day after `d`. */
  function NextDay(d: Date): Date {
    if d.day < DaysInMonth(d.year, d.month) then d.(day := d.day + 1)
    else if d.month < 12 then Date(d.year, d.month + 1, 1)
    else Date(d.year + 1, 1, 1)
  }

  /** Days from 1 January of year 1 to 1 January of `year`. */
  function DaysBeforeYear(year: int): int {
    var y := year - 1;
    365 * y + y / 4 - y / 100 + y / 400
  }

  function DaysBeforeMonth(year: int, month: int): int
    requires 1 <= month <= 13
    decreases month
  {
    if month == 1 then 0 else DaysBeforeMonth(year, month - 1) + DaysInMonth(year, month - 1)
  }

  /** The day number of a date, counted month by month and leap year by leap year. */
  function DaysFromCivil(d: Date): int
    requires 1 <= d.month <= 12
  {
    DaysBeforeYear(d.year) + DaysBeforeMonth(d.year, d.month) + d.day - 1 - 719_162
  }

  lemma DivStep(y: int, k: int)
    requires k > 0
    ensures (y + 1) / k == y / k + if (y + 1) % k == 0 then 1 else 0
  {
    var q, r := y / k, y % k;
    assert y == k * q + r;
    if r + 1 < k {
      DivUnique(y + 1, k, q, r + 1);
    } else {
      DivUnique(y + 1, k, q + 1, 0);
    }
  }

  lemma DivUnique(n: int, k: int, q: int, r: int)
    requires k > 0 && n == k * q + r && 0 <= r < k
    ensures n / k == q && n % k == r
  {
    var q', r' := n / k, n % k;
    assert n == k * q' + r';
    AtLeastOnce(k, q' - q);
    AtLeastOnce(k, q - q');
  }

  lemma AtLeastOnce(k: int, d: int)
    requires k > 0
    ensures d >= 1 ==> k * d >= k
  {
  }

  lemma LeapRuleNests(year: int)
    ensures year % 400 == 0 ==> year % 100 == 0
    ensures year % 100 == 0 ==> year % 4 == 0
  {
  }

  /** The day count is built on the leap rule: consecutive years differ by their length. */
  lemma LeapYears(year: int)
    ensures DaysBeforeYear(year + 1) - DaysBeforeYear(year) == if IsLeap(year) then 366 else 365
  {
    DivStep(year - 1, 4);
    DivStep(year - 1, 100);
    DivStep(year - 1, 400);
    LeapRuleNests(year);
  }

  lemma MonthTable(year: int)
    ensures DaysBeforeMonth(year, 1) == 0 && DaysBeforeMonth(year, 2) == 31
    ensures var l := if IsLeap(year) then 1 else 0;
      && DaysBeforeMonth(year, 3) == 59 + l && DaysBeforeMonth(year, 4) == 90 + l
      && DaysBeforeMonth(year, 5) == 120 + l && DaysBeforeMonth(year, 6) == 151 + l
      && DaysBeforeMonth(year, 7) == 181 + l && DaysBeforeMonth(year, 8) == 212 + l
      && DaysBeforeMonth(year, 9) == 243 + l && DaysBeforeMonth(year, 10) == 273 + l
      && DaysBeforeMonth(year, 11) == 304 + l && DaysBeforeMonth(year, 12) == 334 + l
      && DaysBeforeMonth(year, 13) == 365 + l
  {
  }

  lemma YearOfEraAtStart(y: int)
    requires 0 <= y < 400
    ensures EraYearStart(y) / 1_460 == y / 4 && EraYearStart(y) / 36_524 == y / 100
    ensures EraYearStart(y) / 146_096 == 0
  {
  }

  /** Dividing by `YearOfEra` never goes backwards inside an era. */
  lemma YearOfEraGrows(a: int, b: int)
    requires 0 <= a <= b < 146_096
    ensures a - a / 1_460 + a / 36_524 <= b - b / 1_460 + b / 36_524
  {
    assert b / 1_460 <= a / 1_460 + (b - a) / 1_460 + 1;
    assert a / 36_524 <= b / 36_524;
  }

  lemma YearOfEraAtEnd(y: int)
    requires 0 <= y < 399
    ensures var last := EraYearStart(y + 1) - 1; last - last / 1_460 + last / 36_524 <= 365 * y + 364
  {
    var end := EraYearStart(y + 1);
    YearOfEraAtStart(y + 1);
    DivStep(end - 1, 1_460);
    DivStep(end - 1, 36_524);
    assert end % 1_460 != 0;
  }

  lemma YearOfEraCorrect(doe: int, y: int)
    requires 0 <= y < 400 && EraYearStart(y) <= doe < 146_097
    requires y < 399 ==> doe < EraYearStart(y + 1)
    ensures YearOfEra(doe) == y
  {
    if y < 399 {
      YearOfEraAtStart(y);
      YearOfEraGrows(EraYearStart(y), doe);
      YearOfEraAtEnd(y);
      YearOfEraGrows(doe, EraYearStart(y + 1) - 1);
    }
  }

  /** Every day of an era lies in one of its 400 March years. */
  lemma EraYear(doe: int) returns (y: int)
    requires 0 <= doe < 146_097
    ensures 0 <= y < 400 && YearOfEra(doe) == y && EraYearStart(y) <= doe
    ensures y < 399 ==> doe < EraYearStart(y + 1)
  {
    y := 0;
    while y < 399 && EraYearStart(y + 1) <= doe
      invariant 0 <= y < 400 && EraYearStart(y) <= doe
    {
      y := y + 1;
    }
    YearOfEraCorrect(doe, y);
  }

  /** The March year `yoe` of era `era` starts on the day after February of calendar year `year`. */
  lemma EraYearIsCalendarYear(era: int, yoe: int, year: int)
    requires 0 <= yoe <= 400 && year == 400 * era + yoe
    ensures DaysBeforeYear(year + 1) == era * 146_097 + EraYearStart(yoe) + (if yoe == 400 then 1 else 0)
  {
    assert year / 4 == 100 * era + yoe / 4;
    assert year / 100 == 4 * era + yoe / 100;
    assert year / 400 == era + yoe / 400;
  }

  /** Which month a day of the March year falls in, by the formula with 153 days per five months. */
  lemma MarchMonth(doy: int, mp: int)
    requires 0 <= doy <= 365 && mp == (5 * doy + 2) / 153
    ensures 0 <= mp <= 11
    ensures (153 * mp + 2) / 5 <= doy && (mp < 11 ==> doy < (153 * (mp + 1) + 2) / 5)
  {
  }

  /** The March year and the day in it that the closed form arrives at. */
  lemma MarchDay(days: int) returns (year: int, doy: int)
    ensures CivilFromDays(days) == MarchDateOf(year, doy)
    ensures 0 <= doy < 365 + if IsLeap(year + 1) then 1 else 0
    ensures DaysBeforeYear(year + 1) + doy == days + 719_468
  {
    var z := days + 719_468;
    var era, doe := z / 146_097, z % 146_097;
    year, doy := EraDay(era, doe);
  }

  lemma EraDay(era: int, doe: int) returns (year: int, doy: int)
    requires 0 <= doe < 146_097
    ensures EraDate(era, doe) == MarchDateOf(year, doy)
    ensures 0 <= doy < 365 + if IsLeap(year + 1) then 1 else 0
    ensures DaysBeforeYear(year + 1) + doy == era * 146_097 + doe
  {
    var yoe := EraYear(doe);
    year, doy := yoe + era * 400, doe - EraYearStart(yoe);
    DayOfMarchYear(era, doe, yoe);
  }

  /** Every day number gives a real calendar date, and counting up to that date gives the number back. */
  lemma CivilFromDaysCorrect(days: int)
    ensures ValidDate(CivilFromDays(days)) && DaysFromCivil(CivilFromDays(days)) == days
  {
    var year, doy := MarchDay(days);
    MarchDate(year, doy);
  }

  lemma DayOfMarchYear(era: int, doe: int, yoe: int)
    requires 0 <= yoe < 400 && EraYearStart(yoe) <= doe < 146_097
    requires yoe < 399 ==> doe < EraYearStart(yoe + 1)
    ensures var year, doy := yoe + era * 400, doe - EraYearStart(yoe);
      && 0 <= doy < 365 + (if IsLeap(year + 1) then 1 else 0)
      && DaysBeforeYear(year + 1) + doy == era * 146_097 + doe
  {
    var year := yoe + era * 400;
    EraYearIsCalendarYear(era, yoe, year);
    EraYearIsCalendarYear(era, yoe + 1, year + 1);
    LeapYears(year + 1);
  }

  /** The date `doy` days after 1 March of `year`, as the closed form spells it. */
  lemma MarchDate(year: int, doy: int)
    requires 0 <= doy < 365 + if IsLeap(year + 1) then 1 else 0
    ensures ValidDate(MarchDateOf(year, doy))
    ensures DaysFromCivil(MarchDateOf(year, doy)) == DaysBeforeYear(year + 1) + doy - 719_468
  {
    var mp := (5 * doy + 2) / 153;
    MarchMonth(doy, mp);
    if mp < 10 {
      LeapYears(year);
      MonthsFromMarch(year, mp);
    } else {
      MonthTable(year + 1);
    }
  }

  lemma MonthsFromMarch(year: int, mp: int)
    requires 0 <= mp < 10
    ensures DaysBeforeMonth(year, mp + 3) == (153 * mp + 2) / 5 + 59 + if IsLeap(year) then 1 else 0
    ensures DaysInMonth(year, mp + 3) == (153 * (mp + 1) + 2) / 5 - (153 * mp + 2) / 5
  {
    MonthTable(year);
    assert mp == 0 || mp == 1 || mp == 2 || mp == 3 || mp == 4 || mp == 5 || mp == 6
      || mp == 7 || mp == 8 || mp == 9;
  }

  lemma DateOf(days: int) returns (d: Date)
    ensures d == CivilFromDays(days) && ValidDate(d) && DaysFromCivil(d) == days
  {
    d := CivilFromDays(days);
    CivilFromDaysCorrect(days);
  }

  lemma DaysWithinYear(d: Date)
    requires ValidDate(d)
    ensures 0 <= DaysFromCivil(d) + 719_162 - DaysBeforeYear(d.year) < if IsLeap(d.year) then 366 else 365
  {
    MonthTable(d.year);
  }

  lemma YearsOrdered(a: int, b: int)
    requires a < b
    ensures DaysBeforeYear(a + 1) <= DaysBeforeYear(b)
  {
    var x, y := a, b - 1;
    assert x / 4 <= y / 4 && x / 400 <= y / 400;
    assert y / 100 <= x / 100 + (y - x) / 100 + 1;
  }

  lemma MonthsOrdered(year: int, a: int, b: int)
    requires 1 <= a < b <= 12
    ensures DaysBeforeMonth(year, a) + DaysInMonth(year, a) <= DaysBeforeMonth(year, b)
  {
    MonthTable(year);
  }

  predicate Earlier(a: Date, b: Date) {
    a.year < b.year || (a.year == b.year && (a.month < b.month || (a.month == b.month && a.day < b.day)))
  }

  /** Day numbers order dates as the calendar does, so two dates never share one. */
  lemma DaysFromCivilOrders(a: Date, b: Date)
    requires ValidDate(a) && ValidDate(b) && Earlier(a, b)
    ensures DaysFromCivil(a) < DaysFromCivil(b)
  {
    if a.year < b.year {
      DaysWithinYear(a);
      DaysWithinYear(b);
      LeapYears(a.year);
      YearsOrdered(a.year, b.year);
    } else if a.month < b.month {
      MonthsOrdered(a.year, a.month, b.month);
    }
  }

  lemma OnlyDate(d: Date, found: Date)
    requires ValidDate(d) && ValidDate(found) && DaysFromCivil(d) == DaysFromCivil(found)
    ensures found == d
  {
    if Earlier(found, d) {
      DaysFromCivilOrders(found, d);
    } else if Earlier(d, found) {
      DaysFromCivilOrders(d, found);
    }
  }

  /** The closed form inverts the day count on every date of the calendar. */
  lemma CivilFromDaysInverts(d: Date)
    requires ValidDate(d)
    ensures CivilFromDays(DaysFromCivil(d)) == d
  {
    var found := DateOf(DaysFromCivil(d));
    OnlyDate(d, found);
  }

  /** One more day is the next day of the calendar, so with day 0 all dates follow. */
  lemma CivilFromDaysSuccessor(days: int)
    ensures CivilFromDays(days + 1) == NextDay(CivilFromDays(days))
  {
    var d := DateOf(days);
    var next := DateOf(days + 1);
    NextDayCounts(d);
    OnlyDate(NextDay(d), next);
  }

  lemma EpochDay()
    ensures CivilFromDays(0) == Date(1970, 1, 1)
  {
  }

  lemma NextDayCounts(d: Date)
    requires ValidDate(d)
    ensures ValidDate(NextDay(d)) && DaysFromCivil(NextDay(d)) == DaysFromCivil(d) + 1
  {
    if d.day == DaysInMonth(d.year, d.month) && d.month == 12 {
      MonthTable(d.year);
      LeapYears(d.year);
    }
  }

  // ----- timestamps

  function Padded(n: int, width: nat): string {
    if n < 0 then "-" + ZeroPad(NatText(-n), if width > 0 then width - 1 else 0) else ZeroPad(NatText(n), width)
  }

  /** Milliseconds since the epoch as `YYYY-MM-DD HH:MM:SS.mmm+0000`, in UTC. */
  function FormatTimestampMs(ms: int): string {
    StampText(CivilFromDays(ms / 86_400_000), ms % 86_400_000)
  }

  function StampText(date: Date, inDay: int): string {
    Padded(date.year, 4)
    + AfterYear(Padded(date.month, 2), Padded(date.day, 2), Padded(inDay / 3_600_000, 2),
                Padded(inDay / 60_000 % 60, 2), Padded(inDay / 1_000 % 60, 2), Padded(inDay % 1_000, 3))
  }

  function AfterYear(month: string, day: string, h: string, m: string, s: string, ms: string): string {
    "-" + month + "-" + day + " " + h + ":" + m + ":" + s + "." + ms + "+0000"
  }

  /** Reads a text `YYYY-MM-DD HH:MM:SS.mmm+0000` and refuses every other one: the year has at least four
      places, with zeros in front only to fill them, all other numbers have just their digits, each
      separator is in its place, and the date and the time exist. */
  function ReadTimestamp(text: string): Option<int> {
    if |text| < 24 || !IsYear(text[..|text| - 24]) then None
    else ReadAfterYear(ReadInt(text[..|text| - 24]), text[|text| - 24..])
  }

  predicate IsYear(y: string) {
    var digits := if HasMinus(y) then y[1..] else y;
    |y| >= 4 && AllDigits(digits) && (|y| > 4 ==> digits[0] != '0')
  }

  predicate HasSeparators(t: string)
    requires |t| == 24
  {
    t[0] == '-' && t[3] == '-' && t[6] == ' ' && t[9] == ':' && t[12] == ':' && t[15] == '.' && t[19..] == "+0000"
  }

  predicate HasNumbers(t: string)
    requires |t| == 24
  {
    && AllDigits(t[1..3]) && AllDigits(t[4..6]) && AllDigits(t[7..9]) && AllDigits(t[10..12])
    && AllDigits(t[13..15]) && AllDigits(t[16..19])
  }

  function ReadAfterYear(year: int, t: string): Option<int>
    requires |t| == 24
  {
    var date := Date(year, ReadNat(t[1..3]), ReadNat(t[4..6]));
    var (h, m, s, ms) := (ReadNat(t[7..9]), ReadNat(t[10..12]), ReadNat(t[13..15]), ReadNat(t[16..19]));
    if !HasSeparators(t) || !HasNumbers(t) || !ValidDate(date) || h >= 24 || m >= 60 || s >= 60 then None
    else Some(Instant(date, h, m, s, ms))
  }

  function Instant(date: Date, h: int, m: int, s: int, ms: int): int
    requires 1 <= date.month <= 12
  {
    DaysFromCivil(date) * 86_400_000 + h * 3_600_000 + m * 60_000 + s * 1_000 + ms
  }

  lemma PaddedReads(n: int, width: nat)
    requires width > 1
    ensures ReadInt(Padded(n, width)) == n
    ensures 0 <= n < Pow(10, width) ==> |Padded(n, width)| == width && ReadNat(Padded(n, width)) == n
  {
    ZeroPadReads(if n < 0 then -n else n, if n < 0 then width - 1 else width);
    if n < 0 {
      assert Padded(n, width)[1..] == ZeroPad(NatText(-n), width - 1);
    } else if n < Pow(10, width) {
      PaddedDigits(n, width);
    }
  }

  /** What is printed for a year is a year. */
  lemma YearText(n: int)
    ensures IsYear(Padded(n, 4)) && ReadInt(Padded(n, 4)) == n
  {
    PaddedReads(n, 4);
    var digits := NatText(if n < 0 then -n else n);
    PaddedIsDigits(digits, if n < 0 then 3 else 4);
    if n < 0 {
      assert Padded(n, 4)[1..] == ZeroPad(digits, 3);
    }
  }

  lemma PaddedIsDigits(digits: string, width: nat)
    requires AllDigits(digits) && digits != "" && (digits[0] == '0' ==> digits == "0") && width > 0
    ensures var s := ZeroPad(digits, width);
      AllDigits(s) && |s| >= width && !HasMinus(s) && (|s| > width ==> s[0] != '0')
  {
    if |digits| < width {
      ZerosAreDigits(width - |digits|, digits);
    } else {
      assert IsDigit(digits[0]);
    }
  }

  lemma ZerosAreDigits(n: nat, digits: string)
    requires AllDigits(digits) && n > 0
    ensures var s := Repeat('0', n) + digits; AllDigits(s) && !HasMinus(s)
  {
    var s := Repeat('0', n) + digits;
    assert forall i | 0 <= i < |s| :: s[i] == if i < n then '0' else digits[i - n];
  }

  lemma ZeroPadReads(n: nat, width: nat)
    ensures var s := ZeroPad(NatText(n), width); ReadNat(s) == n && !HasMinus(s)
  {
    hide ReadNat, NatText;
    ReadNatText(n);
    if |NatText(n)| < width {
      ReadZeros(width - |NatText(n)|, NatText(n));
      ZerosAreDigits(width - |NatText(n)|, NatText(n));
    } else {
      assert IsDigit(NatText(n)[0]);
    }
  }

  lemma FixedPlaces(month: string, day: string, h: string, m: string, s: string, ms: string)
    requires |month| == |day| == |h| == |m| == |s| == 2 && |ms| == 3
    ensures var t := AfterYear(month, day, h, m, s, ms);
      && |t| == 24 && HasSeparators(t) && t[1..3] == month && t[4..6] == day && t[7..9] == h
      && t[10..12] == m && t[13..15] == s && t[16..19] == ms
  {
    DayPlaces(month, day);
    TimePlaces(h, m, s, ms);
    var date, time := "-" + month + "-" + day, " " + h + ":" + m + ":" + s + "." + ms;
    var t := AfterYear(month, day, h, m, s, ms);
    assert t == date + time + "+0000";
    assert t[..6] == date && t[6..19] == time && t[19..] == "+0000";
    assert t[1..3] == date[1..3] && t[4..6] == date[4..6] && t[0] == date[0] && t[3] == date[3];
    assert t[7..9] == time[1..3] && t[10..12] == time[4..6] && t[13..15] == time[7..9] && t[16..19] == time[10..13];
    assert t[6] == time[0] && t[9] == time[3] && t[12] == time[6] && t[15] == time[9];
  }

  lemma DayPlaces(month: string, day: string)
    requires |month| == |day| == 2
    ensures var t := "-" + month + "-" + day;
      |t| == 6 && t[0] == '-' && t[3] == '-' && t[1..3] == month && t[4..6] == day
  {
  }

  lemma TimePlaces(h: string, m: string, s: string, ms: string)
    requires |h| == |m| == |s| == 2 && |ms| == 3
    ensures var t := " " + h + ":" + m + ":" + s + "." + ms;
      && |t| == 13 && t[0] == ' ' && t[3] == ':' && t[6] == ':' && t[9] == '.'
      && t[1..3] == h && t[4..6] == m && t[7..9] == s && t[10..13] == ms
  {
  }

  lemma DivTwice(x: int, a: int, b: int)
    requires 0 <= x && a > 0 && b > 0
    ensures a * b > 0 && x / (a * b) == x / a / b
  {
    var q := x / a;
    var r := q / b;
    MulPositive(a, b);
    assert x == a * q + x % a && q == b * r + q % b;
    DivRests(x, a, b, q, r);
    DivUnique(x, a * b, r, x - a * b * r);
  }

  lemma MulPositive(a: int, b: int)
    requires a > 0 && b > 0
    ensures a * b > 0
  {
  }

  lemma DivRests(x: int, a: int, b: int, q: int, r: int)
    requires a > 0 && b > 0 && a * q <= x < a * q + a && b * r <= q < b * r + b
    ensures 0 <= x - a * b * r < a * b
  {
    var rest := q - b * r;
    assert a * q == a * b * r + a * rest;
    AtMost(a, rest, b - 1);
    assert a * (b - 1) + a == a * b;
  }

  lemma AtMost(a: int, x: int, y: int)
    requires a > 0 && 0 <= x <= y
    ensures 0 <= a * x <= a * y
  {
  }

  lemma TimeOfDay(inDay: int)
    requires 0 <= inDay < 86_400_000
    ensures 0 <= inDay / 3_600_000 < 24 && 0 <= inDay / 60_000 % 60 < 60 && 0 <= inDay / 1_000 % 60 < 60
    ensures inDay == inDay / 3_600_000 * 3_600_000 + inDay / 60_000 % 60 * 60_000
      + inDay / 1_000 % 60 * 1_000 + inDay % 1_000
  {
    DivTwice(inDay, 1_000, 60);
    DivTwice(inDay, 60_000, 60);
    var s := inDay / 1_000;
    var m := inDay / 60_000;
    assert s == 60 * m + s % 60 && m == 60 * (inDay / 3_600_000) + m % 60;
    assert inDay == 1_000 * s + inDay % 1_000;
  }

  /** A displayed timestamp loses nothing: reading it gives back the millisecond it came from. */
  lemma TimestampRoundTrip(ms: int)
    ensures ReadTimestamp(FormatTimestampMs(ms)) == Some(ms)
  {
    var days, inDay := ms / 86_400_000, ms % 86_400_000;
    var date := DateOf(days);
    InstantOfDay(days, inDay, date);
  }

  lemma InstantOfDay(days: int, inDay: int, date: Date)
    requires ValidDate(date) && DaysFromCivil(date) == days && 0 <= inDay < 86_400_000
    ensures ReadTimestamp(StampText(date, inDay)) == Some(days * 86_400_000 + inDay)
  {
    hide Padded, AfterYear, ReadTimestamp, ValidDate, DaysFromCivil, Pow;
    TimeOfDay(inDay);
    StampRoundTrip(date, inDay / 3_600_000, inDay / 60_000 % 60, inDay / 1_000 % 60, inDay % 1_000);
  }

  lemma PaddedReadsBelow(n: int, width: nat)
    requires width > 1 && 0 <= n < Pow(10, width)
    ensures |Padded(n, width)| == width && ReadNat(Padded(n, width)) == n && AllDigits(Padded(n, width))
  {
    PaddedReads(n, width);
    PaddedIsDigits(NatText(n), width);
  }

  lemma StampRoundTrip(date: Date, h: int, m: int, s: int, ms: int)
    requires ValidDate(date) && 0 <= h < 24 && 0 <= m < 60 && 0 <= s < 60 && 0 <= ms < 1_000
    ensures ReadTimestamp(Padded(date.year, 4)
        + AfterYear(Padded(date.month, 2), Padded(date.day, 2), Padded(h, 2), Padded(m, 2), Padded(s, 2),
                    Padded(ms, 3)))
      == Some(Instant(date, h, m, s, ms))
  {
    assert Pow(10, 2) == 100 && Pow(10, 3) == 1_000;
    assert 1 <= date.month <= 12 && 1 <= date.day <= 31;
    hide Padded, AfterYear, ReadTimestamp, ValidDate, DaysFromCivil, Pow, ReadNat, AllDigits, Instant;
    PaddedReadsBelow(date.month, 2);
    PaddedReadsBelow(date.day, 2);
    PaddedReadsBelow(h, 2);
    PaddedReadsBelow(m, 2);
    PaddedReadsBelow(s, 2);
    PaddedReadsBelow(ms, 3);
    PlacesRead(date.year, Padded(date.month, 2), Padded(date.day, 2), Padded(h, 2), Padded(m, 2), Padded(s, 2),
               Padded(ms, 3));
  }

  lemma PlacesRead(year: int, month: string, day: string, h: string, m: string, s: string, ms: string)
    requires |month| == |day| == |h| == |m| == |s| == 2 && |ms| == 3
    requires AllDigits(month) && AllDigits(day) && AllDigits(h) && AllDigits(m) && AllDigits(s) && AllDigits(ms)
    requires ValidDate(Date(year, ReadNat(month), ReadNat(day)))
    requires ReadNat(h) < 24 && ReadNat(m) < 60 && ReadNat(s) < 60
    ensures ReadTimestamp(Padded(year, 4) + AfterYear(month, day, h, m, s, ms))
         == Some(Instant(Date(year, ReadNat(month), ReadNat(day)), ReadNat(h), ReadNat(m), ReadNat(s), ReadNat(ms)))
  {
    var tail := AfterYear(month, day, h, m, s, ms);
    FixedPlaces(month, day, h, m, s, ms);
    hide AfterYear, ReadNat, Padded, ValidDate, IsYear, HasSeparators, ReadInt, AllDigits, Instant;
    YearText(year);
    SplitTail(Padded(year, 4), tail);
  }

  lemma SplitTail(head: string, tail: string)
    ensures (head + tail)[..|head + tail| - |tail|] == head && (head + tail)[|head + tail| - |tail|..] == tail
  {
  }
}

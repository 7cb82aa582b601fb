/** The local calendar-date helpers of `src/utils/dateUtils.ts`. A JavaScript `Date` is
    seen through its local-time getters; the time zone that produced those fields plays
    no further part, which is exactly why the formatter is zone-independent. */
module DateUtils {
  import opened Decimal

  /** A `Date` as `getFullYear`, `getMonth` (0-based), `getDate`, `getHours`,
      `getMinutes`, `getSeconds` and `getMilliseconds` report it. */
  datatype Date = Date(year: int, month0: int, day: int, hours: int, minutes: int, seconds: int, millis: int)

  /** Proleptic Gregorian leap years, as ECMAScript dates use them. */
  predicate IsLeapYear(y: int) {
    y % 4 == 0 && (y % 100 != 0 || y % 400 == 0)
  }

  function DaysInMonth(y: int, month0: int): (n: int)
    requires 0 <= month0 < 12
    ensures 28 <= n <= 31
  {
    if month0 == 1 then (if IsLeapYear(y) then 29 else 28)
    else if month0 == 3 || month0 == 5 || month0 == 8 || month0 == 10 then 30
    else 31
  }

  /** Month and day in the ranges the formatter's two-digit fields are built for. */
  predicate MonthDayInRange(d: Date) {
    0 <= d.month0 < 12 && 1 <= d.day <= 31
  }

  /** The getters of a valid (non-NaN) Date always report an existing calendar day and clock time. */
  predicate Valid(d: Date) {
    && MonthDayInRange(d)
    && d.day <= DaysInMonth(d.year, d.month0)
    && 0 <= d.hours < 24
    && 0 <= d.minutes < 60
    && 0 <= d.seconds < 60
    && 0 <= d.millis < 1000
  }

  predicate SameCalendarDay(a: Date, b: Date) {
    a.year == b.year && a.month0 == b.month0 && a.day == b.day
  }

  predicate IsMidnight(d: Date) {
    d.hours == 0 && d.minutes == 0 && d.seconds == 0 && d.millis == 0
  }

  /** `s.padStart(targetLength, fill)` for a one-character fill string. */
  function PadStart(s: string, targetLength: nat, fill: char): (r: string)
    ensures |r| == if |s| >= targetLength then |s| else targetLength
  {
    if |s| >= targetLength then s else seq(targetLength - |s|, _ => fill) + s
  }

  /** The padded text ends with s and everything before s is the fill character. */
  lemma PadStartLayout(s: string, targetLength: nat, fill: char)
    ensures var r := PadStart(s, targetLength, fill);
      && (forall i :: 0 <= i < |s| ==> r[|r| - |s| + i] == s[i])
      && (forall i :: 0 <= i < |r| - |s| ==> r[i] == fill)
  {
  }

  /** `String(n).padStart(2, '0')`. */
  function TwoDigits(n: int): string {
    PadStart(IntToDecimal(n), 2, '0')
  }

  /** `formatLocalDateToIsoDateString`: `YYYY-MM-DD` built from the local year, the
      1-based month and the day of month. The year comes first, unpadded, then `-`;
      `FormatShape` gives the full layout. */
  function FormatLocalDateToIsoDateString(d: Date): (r: string)
    ensures |r| >= |IntToDecimal(d.year)| + 6
  {
    IntToDecimal(d.year) + "-" + TwoDigits(d.month0 + 1) + "-" + TwoDigits(d.day)
  }

  /** A digit run contains no `-`. */
  lemma DigitsHaveNoDash(s: string)
    requires AllDigits(s)
    ensures '-' !in s
  {
    assert forall i :: 0 <= i < |s| ==> IsDigit(s[i]);
  }

  /** A single digit pads to `0` followed by that digit. */
  lemma PadOneDigit(s: string)
    requires |s| == 1 && AllDigits(s)
    ensures PadStart(s, 2, '0') == ['0'] + s
    ensures DigitsToNat(['0'] + s) == DigitsToNat(s)
  {
    var r := ['0'] + s;
    assert r[..1] == ['0'];
    assert ['0'][..0] == [];
    assert s[..0] == [];
  }

  /** A number in 0..99 pads to exactly two digits that read back as that number. */
  lemma TwoDigitsOf(n: int)
    requires 0 <= n <= 99
    ensures |TwoDigits(n)| == 2 && ReadsAs(TwoDigits(n), n)
  {
    var s := NatToDigits(n);
    assert IntToDecimal(n) == s;
    DigitsRoundTrip(n);
    DigitsLength(n, 1);
    if n < 10 {
      PadOneDigit(s);
    } else {
      DigitsLength(n, 2);
    }
  }

  /** Where the pieces of `y-mm-dd` sit when mm and dd have two characters each. */
  lemma JoinedShape(y: string, mm: string, dd: string)
    requires |mm| == 2 && |dd| == 2
    ensures var r := y + "-" + mm + "-" + dd;
      && |r| == |y| + 6
      && r[..|r| - 6] == y
      && r[|r| - 6] == '-' && r[|r| - 3] == '-'
      && r[|r| - 5..|r| - 3] == mm
      && r[|r| - 2..] == dd
  {
  }

  /** The shape of a formatted date: the year's decimal text, `-`, two digits
      denoting month0 + 1, `-`, two digits denoting the day, and nothing else. */
  lemma FormatShape(d: Date)
    requires MonthDayInRange(d)
    ensures var r := FormatLocalDateToIsoDateString(d);
      && |r| == |IntToDecimal(d.year)| + 6
      && r[..|r| - 6] == IntToDecimal(d.year)
      && r[|r| - 6] == '-' && r[|r| - 3] == '-'
      && ReadsAs(r[|r| - 5..|r| - 3], d.month0 + 1)
      && ReadsAs(r[|r| - 2..], d.day)
  {
    TwoDigitsOf(d.month0 + 1);
    TwoDigitsOf(d.day);
    JoinedShape(IntToDecimal(d.year), TwoDigits(d.month0 + 1), TwoDigits(d.day));
  }

  /** A year in 1000..9999 gives the ten-character `YYYY-MM-DD` form. */
  lemma FormatLengthFourDigitYear(d: Date)
    requires MonthDayInRange(d) && 1000 <= d.year <= 9999
    ensures |FormatLocalDateToIsoDateString(d)| == 10
  {
    FormatShape(d);
    DigitsLength(d.year, 4);
  }

  /** Only the year, month and day are read: the time of day never reaches the output. */
  lemma FormatIgnoresTimeOfDay(a: Date, b: Date)
    requires SameCalendarDay(a, b)
    ensures FormatLocalDateToIsoDateString(a) == FormatLocalDateToIsoDateString(b)
  {
    assert a.(hours := b.hours, minutes := b.minutes, seconds := b.seconds, millis := b.millis) == b;
  }

  /** Two texts of the formatter's shape that are equal carry equal fields. */
  lemma EqualShapesEqualFields(r: string, y1: int, m1: int, d1: int, y2: int, m2: int, d2: int)
    requires |r| >= 6 && r[..|r| - 6] == IntToDecimal(y1) && r[..|r| - 6] == IntToDecimal(y2)
    requires ReadsAs(r[|r| - 5..|r| - 3], m1) && ReadsAs(r[|r| - 5..|r| - 3], m2)
    requires ReadsAs(r[|r| - 2..], d1) && ReadsAs(r[|r| - 2..], d2)
    ensures y1 == y2 && m1 == m2 && d1 == d2
  {
    IntToDecimalInjective(y1, y2);
  }

  /** The text determines the calendar day: year, month and day are all recoverable. */
  lemma FormatDeterminesDay(a: Date, b: Date)
    requires MonthDayInRange(a) && MonthDayInRange(b)
    requires FormatLocalDateToIsoDateString(a) == FormatLocalDateToIsoDateString(b)
    ensures SameCalendarDay(a, b)
  {
    FormatShape(a);
    FormatShape(b);
    EqualShapesEqualFields(FormatLocalDateToIsoDateString(a),
      a.year, a.month0 + 1, a.day, b.year, b.month0 + 1, b.day);
  }

  /** Two dates format identically iff they fall on the same calendar day. */
  lemma FormatEqualIffSameDay(a: Date, b: Date)
    requires MonthDayInRange(a) && MonthDayInRange(b)
    ensures FormatLocalDateToIsoDateString(a) == FormatLocalDateToIsoDateString(b) <==> SameCalendarDay(a, b)
  {
    if FormatLocalDateToIsoDateString(a) == FormatLocalDateToIsoDateString(b) {
      FormatDeterminesDay(a, b);
    }
    if SameCalendarDay(a, b) {
      FormatIgnoresTimeOfDay(a, b);
    }
  }

  /** Splitting `y-mm-dd` at `-` gives back the three pieces when none of them holds a `-`. */
  lemma SplitJoined(y: string, mm: string, dd: string)
    requires '-' !in y && '-' !in mm && '-' !in dd
    ensures Split(y + "-" + mm + "-" + dd, '-') == [y, mm, dd]
  {
    assert y + "-" + mm + "-" + dd == y + ['-'] + (mm + ['-'] + dd);
    SplitAtSeparator(y, '-', mm + ['-'] + dd);
    SplitAtSeparator(mm, '-', dd);
    SplitNoSeparator(dd, '-');
  }

  /** Splitting `y-mm-dd` at `-` when the three pieces are digit runs gives three pieces
      that read back as the same numbers. */
  lemma SplitDigitFields(y: string, mm: string, dd: string, a: int, b: int, c: int)
    requires ReadsAs(y, a) && ReadsAs(mm, b) && ReadsAs(dd, c)
    ensures var parts := Split(y + "-" + mm + "-" + dd, '-');
      && parts == [y, mm, dd]
      && ReadsAs(parts[0], a) && ReadsAs(parts[1], b) && ReadsAs(parts[2], c)
  {
    DigitsHaveNoDash(y);
    DigitsHaveNoDash(mm);
    DigitsHaveNoDash(dd);
    SplitJoined(y, mm, dd);
  }

  /** For a non-negative year, `split('-')` of the output yields exactly three pieces
      that read back as the year, month0 + 1 and the day. */
  lemma FormatSplit(d: Date)
    requires MonthDayInRange(d) && d.year >= 0
    ensures var parts := Split(FormatLocalDateToIsoDateString(d), '-');
      && parts == [IntToDecimal(d.year), TwoDigits(d.month0 + 1), TwoDigits(d.day)]
      && ReadsAs(parts[0], d.year)
      && ReadsAs(parts[1], d.month0 + 1)
      && ReadsAs(parts[2], d.day)
      && (1000 <= d.year <= 9999 ==> |parts[0]| == 4)
  {
    var y, mm, dd := IntToDecimal(d.year), TwoDigits(d.month0 + 1), TwoDigits(d.day);
    assert FormatLocalDateToIsoDateString(d) == y + "-" + mm + "-" + dd;
    DigitsRoundTrip(d.year);
    TwoDigitsOf(d.month0 + 1);
    TwoDigitsOf(d.day);
    SplitDigitFields(y, mm, dd, d.year, d.month0 + 1, d.day);
    if 1000 <= d.year <= 9999 {
      DigitsLength(d.year, 4);
    }
  }

  /** The year the `Date` constructor uses for a year argument: 0..99 mean 1900..1999. */
  function ConstructorYear(y: int): (fy: int)
    ensures 0 <= y <= 99 ==> 1900 <= fy <= 1999 && fy % 100 == y
    ensures !(0 <= y <= 99) ==> fy == y
  {
    if 0 <= y <= 99 then 1900 + y else y
  }

  /** `new Date(y, month0, day)` for a month index and a day of month a date can hold: a
      year in 0..99 is taken as 1900 + year, the time is local midnight, and a day past the
      end of its month rolls into the next month. December has 31 days, so with these
      arguments the roll-over never crosses into the next year. */
  function MakeLocalDate(y: int, month0: int, day: int): (r: Date)
    requires 0 <= month0 < 12 && 1 <= day <= 31
    ensures Valid(r) && IsMidnight(r)
    ensures r.year == ConstructorYear(y)
    ensures var dim := DaysInMonth(ConstructorYear(y), month0);
      && (day <= dim ==> r.month0 == month0 && r.day == day)
      && (day > dim ==> month0 < 11 && r.month0 == month0 + 1 && r.day == day - dim)
  {
    var fullYear := ConstructorYear(y);
    var dim := DaysInMonth(fullYear, month0);
    if day <= dim then Date(fullYear, month0, day, 0, 0, 0, 0)
    else Date(fullYear, month0 + 1, day - dim, 0, 0, 0, 0)
  }

  /** `getCurrentLocalDate`, with `new Date()` supplied as `now`: local midnight of the
      day `now` falls on. Outside years 0..99 that is the same calendar day; inside, the
      constructor's two-digit-year rule moves it to the 1900s. */
  function GetCurrentLocalDate(now: Date): (r: Date)
    requires Valid(now)
    ensures Valid(r) && IsMidnight(r)
    ensures !(0 <= now.year <= 99) ==> SameCalendarDay(r, now)
    ensures 0 <= now.year <= 99 ==> 1900 <= r.year <= 1999
  {
    MakeLocalDate(now.year, now.month0, now.day)
  }

  /** The calendar day survives stripping the time exactly when the year is outside 0..99. */
  lemma CurrentLocalDateKeepsDayIff(now: Date)
    requires Valid(now)
    ensures SameCalendarDay(GetCurrentLocalDate(now), now) <==> !(0 <= now.year <= 99)
  {
  }

  /** Stripping the time twice is the same as stripping it once. */
  lemma CurrentLocalDateIdempotent(now: Date)
    requires Valid(now)
    ensures GetCurrentLocalDate(GetCurrentLocalDate(now)) == GetCurrentLocalDate(now)
  {
  }

  /** Stripping the time moves `now` to another month only from 29 February of year 0,
      which the two-digit-year rule reads as 29 February 1900, a day that does not exist;
      it becomes 1 March 1900. */
  lemma CurrentLocalDateRollsOverOnlyFromYearZeroLeapDay(now: Date)
    requires Valid(now)
    ensures GetCurrentLocalDate(now).month0 != now.month0 <==> now.year == 0 && now.month0 == 1 && now.day == 29
    ensures now.year == 0 && now.month0 == 1 && now.day == 29 ==> GetCurrentLocalDate(now) == Date(1900, 2, 1, 0, 0, 0, 0)
  {
    var fy := ConstructorYear(now.year);
    if now.day > DaysInMonth(fy, now.month0) {
      assert now.day > DaysInMonth(now.year, now.month0) || fy != now.year;
      assert now.month0 == 1 && now.day == 29 && now.year == 0 by {
        if fy == now.year {
          assert false;
        }
        assert 0 <= now.year <= 99;
        assert DaysInMonth(fy, now.month0) < now.day <= DaysInMonth(now.year, now.month0);
        assert now.month0 == 1 && IsLeapYear(now.year) && !IsLeapYear(1900 + now.year);
      }
    }
  }

  /** Formatting the stripped date gives the same text as formatting `now` itself,
      exactly when the two-digit-year rule does not apply. */
  lemma FormatCurrentLocalDate(now: Date)
    requires Valid(now)
    ensures FormatLocalDateToIsoDateString(GetCurrentLocalDate(now)) == FormatLocalDateToIsoDateString(now)
      <==> !(0 <= now.year <= 99)
  {
    FormatEqualIffSameDay(GetCurrentLocalDate(now), now);
  }

  /** A clock reading in year 50 is stripped to a day in 1950, and the formatted text changes. */
  lemma TwoDigitYearCounterexample()
    ensures var now := Date(50, 0, 1, 12, 0, 0, 0);
      && Valid(now)
      && GetCurrentLocalDate(now) == Date(1950, 0, 1, 0, 0, 0, 0)
      && FormatLocalDateToIsoDateString(now) != FormatLocalDateToIsoDateString(GetCurrentLocalDate(now))
  {
    var now := Date(50, 0, 1, 12, 0, 0, 0);
    FormatCurrentLocalDate(now);
  }

  /** Local midnight of the day `now` falls on, the year kept as it is: what
      `getCurrentLocalDate` evidently means, and what it returns outside years 0..99. */
  function StartOfLocalDay(now: Date): (r: Date)
    requires Valid(now)
    ensures Valid(r) && IsMidnight(r) && SameCalendarDay(r, now)
  {
    now.(hours := 0, minutes := 0, seconds := 0, millis := 0)
  }

  /** The two agree exactly when the two-digit-year rule does not apply. */
  lemma StartOfLocalDayAgrees(now: Date)
    requires Valid(now)
    ensures GetCurrentLocalDate(now) == StartOfLocalDay(now) <==> !(0 <= now.year <= 99)
  {
    if 0 <= now.year <= 99 {
      assert GetCurrentLocalDate(now).year != now.year;
    }
  }

  /** Stripping twice is stripping once, and the stripped day formats as `now` does, for every year. */
  lemma StartOfLocalDayFormatsAsNow(now: Date)
    requires Valid(now)
    ensures StartOfLocalDay(StartOfLocalDay(now)) == StartOfLocalDay(now)
    ensures FormatLocalDateToIsoDateString(StartOfLocalDay(now)) == FormatLocalDateToIsoDateString(now)
  {
    FormatIgnoresTimeOfDay(StartOfLocalDay(now), now);
  }
}

/**
  The arrival time sent to the transit provider: printed in Korean time to the minute by one
  service, read back by the other, and rounded down to a cache bucket.
  */
module TmapDateTime {
  import opened Common
  import opened Calendar
  import opened Digits

  const KST_OFFSET: int := 9 * MS_PER_HOUR

  /** A year as a number prints: no padding, and a sign before negative years. */
  function YearText(y: int): string
  {
    if y < 0 then "-" + Decimal(-y) else Decimal(y)
  }

  /** The Korean-time fields of an instant. */
  function KstFields(t: int): DateFields
  {
    FieldsOf(t + KST_OFFSET)
  }

  function StampOf(f: DateFields): string
    requires ValidFields(f)
  {
    Pad2(f.month + 1) + Pad2(f.date) + Pad2(f.hour) + Pad2(f.minute)
  }

  function FormatFields(f: DateFields): string
    requires ValidFields(f)
  {
    YearText(f.year) + StampOf(f)
  }

  function FormatTmapDateTime(t: int): string
  {
    FieldsAreValid(t + KST_OFFSET);
    FormatFields(KstFields(t))
  }

  /** The instant of a UTC date and time, where years 0 to 99 stand for 1900 to 1999. */
  function DateUtc(year: nat, month: int, date: int, hour: int, minute: int, second: int): int
  {
    MakeDay(if year <= 99 then 1900 + year else year, month, date) * MS_PER_DAY + TimeOfDay(hour, minute, second, 0)
  }

  /** None where the text has fewer than 12 or more than 14 digits. */
  function ParseTmapDateTime(value: string): Option<int>
  {
    ParseDigits(DigitsOnly(value))
  }

  function ParseDigits(n: string): Option<int>
    requires AllDigits(n)
  {
    if |n| < 12 || |n| > 14 then None
    else
      var second := if |n| >= 14 then Number(n[12..14]) else 0;
      Some(DateUtc(Number(n[..4]), Number(n[4..6]) - 1, Number(n[6..8]), Number(n[8..10]), Number(n[10..12]), second)
           - KST_OFFSET)
  }

  function FloorMinute(t: int): int
  {
    t / MS_PER_MINUTE * MS_PER_MINUTE
  }

  // ----- The round trip -----

  lemma StampReads(f: DateFields, s: string)
    requires ValidFields(f) && s == StampOf(f)
    ensures |s| == 8 && AllDigits(s)
    ensures Number(s[..2]) == f.month + 1 && Number(s[2..4]) == f.date
    ensures Number(s[4..6]) == f.hour && Number(s[6..8]) == f.minute
  {
    hide Pad2;
    assert s[..2] == Pad2(f.month + 1);
    assert s[2..4] == Pad2(f.date);
    assert s[4..6] == Pad2(f.hour);
    assert s[6..8] == Pad2(f.minute);
    NumberOfPad2(f.month + 1);
    NumberOfPad2(f.date);
    NumberOfPad2(f.hour);
    NumberOfPad2(f.minute);
  }

  function Magnitude(y: int): nat
  {
    if y < 0 then -y else y
  }

  lemma DigitsOfSigned(digits: string)
    requires AllDigits(digits)
    ensures DigitsOnly(digits) == digits && DigitsOnly("-" + digits) == digits
  {
    DigitsOnlyOfDigits(digits);
    assert ("-" + digits)[1..] == digits;
  }

  /** The digits of a printed time are the digits of the year and the stamp. */
  lemma FormatDigits(f: DateFields)
    requires ValidFields(f)
    ensures DigitsOnly(FormatFields(f)) == Decimal(Magnitude(f.year)) + StampOf(f)
  {
    hide StampOf, Decimal, DigitsOnly, IsDate, Number, Pad2;
    StampReads(f, StampOf(f));
    hide ValidFields, AllDigits;
    DigitsOfSigned(Decimal(Magnitude(f.year)) + StampOf(f));
    assert f.year < 0 ==> FormatFields(f) == "-" + (Decimal(Magnitude(f.year)) + StampOf(f));
  }

  /** Minutes are the same in Korean time. */
  lemma KstMinutes(t: int)
    ensures FloorMinute(t + KST_OFFSET) == FloorMinute(t) + KST_OFFSET
  {}

  /** Leaving out seconds and milliseconds rounds down to the minute. */
  lemma WithoutSeconds(k: int)
    ensures var f := FieldsOf(k);
            MakeDay(f.year, f.month, f.date) * MS_PER_DAY + TimeOfDay(f.hour, f.minute, 0, 0) == FloorMinute(k)
  {
    var f := FieldsOf(k);
    MakeOfFields(k);
    SecondsAreRest(k);
    assert k == FloorMinute(k) + k % MS_PER_MINUTE;
  }

  lemma SecondsAreRest(k: int)
    ensures FieldsOf(k).second * 1000 + FieldsOf(k).ms == k % MS_PER_MINUTE
  {
    hide DateFromDay;
    DayInMinutes(k);
    SecondsOfRest(k % MS_PER_DAY);
  }

  lemma DayInMinutes(k: int)
    ensures k % MS_PER_DAY % MS_PER_MINUTE == k % MS_PER_MINUTE
  {}

  lemma SecondsOfRest(rest: int)
    requires 0 <= rest < MS_PER_DAY
    ensures rest / 1000 % 60 * 1000 + rest % 1000 == rest % MS_PER_MINUTE
  {}

  /** Reading a year of four digits and a stamp. */
  lemma ParsesStamp(y: string, f: DateFields)
    requires AllDigits(y) && |y| == 4 && ValidFields(f)
    ensures AllDigits(y + StampOf(f))
    ensures ParseDigits(y + StampOf(f)) == Some(DateUtc(Number(y), f.month, f.date, f.hour, f.minute, 0) - KST_OFFSET)
  {
    hide DateUtc;
    var stamp := StampOf(f);
    var n := y + stamp;
    StampReads(f, stamp);
    assert n[..4] == y && n[4..6] == stamp[..2] && n[6..8] == stamp[2..4];
    assert n[8..10] == stamp[4..6] && n[10..12] == stamp[6..8];
  }

  /** For Korean years of four digits, reading a printed time gives the time to the minute. */
  lemma RoundTrip(t: int)
    requires 1000 <= KstFields(t).year <= 9999
    ensures ParseTmapDateTime(FormatTmapDateTime(t)) == Some(FloorMinute(t))
  {
    hide DateFromDay, MakeDay, StampOf, ParseDigits;
    FieldsAreValid(t + KST_OFFSET);
    var f := KstFields(t);
    FormatDigits(f);
    DecimalLength(f.year);
    NumberOfDecimal(f.year);
    ParsesStamp(Decimal(f.year), f);
    WithoutSeconds(t + KST_OFFSET);
    KstMinutes(t);
  }

  // ----- Where it fails -----

  /** A time read from 12 to 14 digits lies in the years around its first four digits. */
  lemma ParsedYears(n: string)
    requires AllDigits(n) && 12 <= |n| <= 14 && Number(n[..4]) >= 1000
    ensures ParseDigits(n).Some?
    ensures var y, k := Number(n[..4]), ParseDigits(n).value + KST_OFFSET;
            DayFromYear(y - 2) * MS_PER_DAY <= k < DayFromYear(y + 10) * MS_PER_DAY
  {
    hide DateUtc, DayFromYear, Number;
    var second := if |n| == 14 then Number(n[12..14]) else 0;
    TwoDigits(n[4..6]);
    TwoDigits(n[6..8]);
    TwoDigits(n[8..10]);
    TwoDigits(n[10..12]);
    if |n| == 14 {
      TwoDigits(n[12..14]);
    }
    DateUtcIsNear(Number(n[..4]), Number(n[4..6]) - 1, Number(n[6..8]), Number(n[8..10]), Number(n[10..12]), second);
  }

  lemma TwoDigits(s: string)
    requires |s| == 2 && AllDigits(s)
    ensures Number(s) <= 99
  {
    NumberOfTwo(s);
  }

  lemma DateUtcIsNear(y: nat, month: int, date: nat, hour: nat, minute: nat, second: nat)
    requires y >= 1000 && -1 <= month <= 98 && date <= 99 && hour <= 99 && minute <= 99 && second <= 99
    ensures DayFromYear(y - 2) * MS_PER_DAY <= DateUtc(y, month, date, hour, minute, second)
    ensures DateUtc(y, month, date, hour, minute, second) < DayFromYear(y + 10) * MS_PER_DAY
  {
    DayIsNear(y, month, date);
    InstantIsNear(DayFromYear(y - 2), MakeDay(y, month, date), DayFromYear(y + 10), TimeOfDay(hour, minute, second, 0));
  }

  lemma InstantIsNear(low: int, day: int, high: int, time: int)
    requires low <= day && day + 5 <= high && 0 <= time < 5 * MS_PER_DAY
    ensures low * MS_PER_DAY <= day * MS_PER_DAY + time < high * MS_PER_DAY
  {}

  lemma DayIsNear(y: int, month: int, date: int)
    requires -1 <= month <= 98 && 0 <= date <= 99
    ensures DayFromYear(y - 2) <= MakeDay(y, month, date) && MakeDay(y, month, date) + 5 <= DayFromYear(y + 10)
  {
    hide DayFromYear;
    var z, m := y + month / 12, month % 12;
    assert y - 1 <= z <= y + 8;
    YearsGrow(y - 2, z);
    YearsGrow(z, y + 10);
    assert 0 <= MonthStart(m, Leap(z)) <= 335;
  }

  /** The first four of five or six digits are at most a tenth of the number. */
  lemma FirstFour(y: nat)
    requires 10_000 <= y <= 999_999
    ensures |Decimal(y)| >= 4 && 1000 <= Number(Decimal(y)[..4]) <= y / 10
  {
    DecimalLength(y);
    DecimalDropsLast(y);
    DecimalLength(y / 10);
    NumberOfDecimal(y / 10);
    if y > 99_999 {
      DecimalDropsLast(y / 10);
      DecimalLength(y / 100);
      NumberOfDecimal(y / 100);
      assert y / 10 / 10 == y / 100;
      assert Decimal(y)[..4] == Decimal(y)[..5][..4];
    }
  }

  /** What is read for a year of magnitude 1000 to 999999 misses every other year than its own. */
  lemma ParsedYearMisses(f: DateFields, k: int)
    requires ValidFields(f) && (f.year < 1000 || 9999 < f.year) && 1000 <= Magnitude(f.year) <= 999_999
    requires DayFromYear(f.year) * MS_PER_DAY <= k < DayFromYear(f.year + 1) * MS_PER_DAY
    requires AllDigits(Decimal(Magnitude(f.year)) + StampOf(f))
    ensures ParseDigits(Decimal(Magnitude(f.year)) + StampOf(f)) != Some(k - KST_OFFSET)
  {
    hide DayFromYear, ParseDigits, StampOf, Number, Decimal;
    var digits := Decimal(Magnitude(f.year));
    var n := digits + StampOf(f);
    DecimalLength(Magnitude(f.year));
    NumberOfDecimal(Magnitude(f.year));
    if Magnitude(f.year) > 9999 {
      FirstFour(Magnitude(f.year));
    }
    assert n[..4] == digits[..4];
    assert |digits| == 4 ==> digits[..4] == digits;
    var y := Number(n[..4]);
    StampReads(f, StampOf(f));
    ParsedYears(n);
    if f.year < 0 {
      YearsGrow(f.year + 1, y - 2);
    } else {
      YearsGrow(y + 10, f.year);
    }
  }

  /** A time whose Korean year has other than four digits, or is negative, does not come back. */
  lemma NoRoundTrip(t: int)
    requires KstFields(t).year < 1000 || 9999 < KstFields(t).year
    ensures ParseTmapDateTime(FormatTmapDateTime(t)) != Some(FloorMinute(t))
  {
    hide DayFromYear, DateFromDay, DateUtc, StampOf, Decimal, Number;
    FieldsAreValid(t + KST_OFFSET);
    var f := KstFields(t);
    FormatDigits(f);
    StampReads(f, StampOf(f));
    DecimalLength(Magnitude(f.year));
    if 1000 <= Magnitude(f.year) <= 999_999 {
      FloorStaysInYear(t);
      ParsedYearMisses(f, FloorMinute(t) + KST_OFFSET);
    }
  }

  lemma FloorStaysInYear(t: int)
    ensures var y := KstFields(t).year;
            DayFromYear(y) * MS_PER_DAY <= FloorMinute(t) + KST_OFFSET < DayFromYear(y + 1) * MS_PER_DAY
  {
    var y := KstFields(t).year;
    YearBounds(t + KST_OFFSET);
    KstMinutes(t);
    FloorKeepsDays(t + KST_OFFSET, DayFromYear(y));
  }

  lemma FloorKeepsDays(k: int, day: int)
    requires day * MS_PER_DAY <= k
    ensures day * MS_PER_DAY <= FloorMinute(k) <= k
  {}

  /** The two services agree on an arrival time exactly for Korean years 1000 to 9999. */
  lemma RoundTripIffFourDigits(t: int)
    ensures ParseTmapDateTime(FormatTmapDateTime(t)) == Some(FloorMinute(t)) <==> 1000 <= KstFields(t).year <= 9999
  {
    if 1000 <= KstFields(t).year <= 9999 {
      RoundTrip(t);
    } else {
      NoRoundTrip(t);
    }
  }

  lemma NumberOfFour(s: string)
    requires AllDigits(s) && |s| == 4
    ensures Number(s) == 1000 * DigitValue(s[0]) + 100 * DigitValue(s[1]) + 10 * DigitValue(s[2]) + DigitValue(s[3])
  {
    assert s[..3][..2] == s[..2];
    assert Number(s) == 10 * Number(s[..3]) + DigitValue(s[3]);
    assert Number(s[..3]) == 10 * Number(s[..2]) + DigitValue(s[2]);
    NumberOfTwo(s[..2]);
  }

  lemma KnownInstant()
    ensures DateUtc(2024, 2, 1, 8, 59, 59) == 1_709_251_199_000 + 9 * 3_600_000
  {
    assert DayFromYear(2024) == 19_723 && Leap(2024);
  }

  lemma KnownNumbers(s: string)
    requires s == "20240301085959"
    ensures AllDigits(s) && Number(s[..4]) == 2024 && Number(s[4..6]) == 3 && Number(s[6..8]) == 1
    ensures Number(s[8..10]) == 8 && Number(s[10..12]) == 59 && Number(s[12..14]) == 59
  {
    hide Number;
    NumberOfFour(s[..4]);
    assert s[4..6] == "03" && s[6..8] == "01" && s[8..10] == "08" && s[10..12] == "59" && s[12..14] == "59";
    NumberOfTwo("03");
    NumberOfTwo("01");
    NumberOfTwo("08");
    NumberOfTwo("59");
  }

  /** Korean time is nine hours ahead of UTC: the second before nine o'clock on 1 March 2024. */
  lemma KnownTime()
    ensures ParseTmapDateTime("20240301085959") == Some(1_709_251_199_000)
  {
    KnownNumbers("20240301085959");
    DigitsOnlyOfDigits("20240301085959");
    KnownInstant();
    hide Number, DigitsOnly, DateUtc;
  }

  // ----- Buckets -----

  /** The start of the bucket of `minutes` minutes that an instant falls into. */
  function BucketStart(t: int, minutes: nat): int
    requires minutes >= 1
  {
    t / (minutes * MS_PER_MINUTE) * (minutes * MS_PER_MINUTE)
  }

  lemma {:induction false} MultiplesAreApart(m: int, n: int, b: int)
    requires b > 0
    ensures m < n ==> m * b + b <= n * b
    decreases n - m
  {
    if m < n {
      assert n * b == (n - 1) * b + b;
      MultiplesAreApart(m, n - 1, b);
    }
  }

  lemma QuotientIs(a: int, b: int, q: int)
    requires b > 0 && q * b <= a < q * b + b
    ensures a / b == q
  {
    var r := a / b;
    assert r * b + a % b == a;
    MultiplesAreApart(r, q, b);
    MultiplesAreApart(q, r, b);
  }

  lemma BucketBounds(t: int, minutes: nat)
    requires minutes >= 1
    ensures BucketStart(t, minutes) <= t < BucketStart(t, minutes) + minutes * MS_PER_MINUTE
  {}

  /** Rounding down to the minute first does not change the bucket. */
  lemma BucketOfMinute(t: int, minutes: nat)
    requires minutes >= 1
    ensures BucketStart(FloorMinute(t), minutes) == BucketStart(t, minutes)
  {
    var size := minutes * MS_PER_MINUTE;
    var q := t / size;
    var start := q * size;
    BucketBounds(t, minutes);
    assert start == q * minutes * MS_PER_MINUTE;
    MinuteAbove(t, q * minutes);
    QuotientIs(FloorMinute(t), size, q);
  }

  lemma MinuteAbove(t: int, m: int)
    requires m * MS_PER_MINUTE <= t
    ensures m * MS_PER_MINUTE <= FloorMinute(t) <= t
  {}

  /** The bucket computed from the printed time is the bucket of the appointment itself. */
  lemma BucketOfPrintedTime(t: int, minutes: nat)
    requires minutes >= 1 && 1000 <= KstFields(t).year <= 9999
    ensures ParseTmapDateTime(FormatTmapDateTime(t)).Some?
    ensures BucketStart(ParseTmapDateTime(FormatTmapDateTime(t)).value, minutes) == BucketStart(t, minutes)
  {
    RoundTrip(t);
    BucketOfMinute(t, minutes);
  }
}

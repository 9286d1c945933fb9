/** Proleptic Gregorian calendar arithmetic as Python's `datetime` and
    `calendar` modules do it: the day ordinal of `date.toordinal()`
    (0001-01-01 is day 1), `date.weekday()` (Monday is 0),
    `calendar.monthrange(y, m)[1]`, adding and subtracting whole days, and
    the text of `datetime.isoformat()`.  Years are not bounded above. */
module Calendar {

  /** Microseconds in one day: a `datetime`'s time of day is counted in these. */
  const MicrosPerDay: int := 86_400_000_000

  datatype Date = Date(year: int, month: int, day: int)

  /** A naive `datetime`: a calendar date and the microsecond of that day. */
  datatype DateTime = DateTime(date: Date, micro: int)

  predicate IsLeap(y: int)
  {
    y % 4 == 0 && (y % 100 != 0 || y % 400 == 0)
  }

  function DaysInYear(y: int): int
  {
    if IsLeap(y) then 366 else 365
  }

  /** `calendar.monthrange(y, m)[1]`: the real length of the month. */
  function DaysInMonth(y: int, m: int): (n: int)
    requires 1 <= m <= 12
    ensures 28 <= n <= 31
    ensures n == 29 <==> m == 2 && IsLeap(y)
  {
    [31, 28, 31, 30, 31, 30, 31, 31, 30, 31, 30, 31][m - 1]
    + (if m == 2 && IsLeap(y) then 1 else 0)
  }

  /** Days of the year `y` before the first of month `m`. */
  function DaysBeforeMonth(y: int, m: int): int
    requires 1 <= m <= 12
  {
    [0, 31, 59, 90, 120, 151, 181, 212, 243, 273, 304, 334][m - 1]
    + (if m > 2 && IsLeap(y) then 1 else 0)
  }

  /** Days before January 1 of year `y`, counted from 0001-01-01: the
      lengths of the years before it. */
  function DaysBeforeYear(y: int): (n: int)
    requires y >= 1
    ensures n >= 0
    decreases y
  {
    if y == 1 then 0 else DaysBeforeYear(y - 1) + DaysInYear(y - 1)
  }

  /** Every year before `y` contributes 365 or 366 days. */
  lemma {:induction false} DaysBeforeYearBounds(y: int)
    requires y >= 1
    ensures 365 * (y - 1) <= DaysBeforeYear(y) <= 366 * (y - 1)
    decreases y
  {
    if y > 1 {
      DaysBeforeYearBounds(y - 1);
    }
  }

  predicate ValidDate(d: Date)
  {
    d.year >= 1 && 1 <= d.month <= 12 && 1 <= d.day <= DaysInMonth(d.year, d.month)
  }

  predicate ValidDateTime(t: DateTime)
  {
    ValidDate(t.date) && 0 <= t.micro < MicrosPerDay
  }

  /** `date.toordinal()`. */
  function Ordinal(d: Date): (n: int)
    requires ValidDate(d)
    ensures n >= 1
  {
    DaysBeforeYear(d.year) + DaysBeforeMonth(d.year, d.month) + d.day
  }

  /** `date.weekday()`: Monday is 0 and Sunday is 6. */
  function Weekday(d: Date): (w: int)
    requires ValidDate(d)
    ensures 0 <= w < 7
  {
    (Ordinal(d) + 6) % 7
  }

  /** Microseconds since 0001-01-01T00:00:00; the order of instants. */
  function Timestamp(t: DateTime): int
    requires ValidDate(t.date)
  {
    (Ordinal(t.date) - 1) * MicrosPerDay + t.micro
  }

  /** The year-length step of the ordinal: the years before `y + 1` are
      those before `y` and `y` itself. */
  lemma YearStep(y: int)
    requires y >= 1
    ensures DaysBeforeYear(y + 1) == DaysBeforeYear(y) + DaysInYear(y)
  {
  }

  /** The count of days before a year agrees with the closed form that
      CPython's `_days_before_year` uses. */
  lemma {:induction false} DaysBeforeYearClosedForm(y: int)
    requires y >= 1
    ensures var p := y - 1;
      DaysBeforeYear(y) == p * 365 + p / 4 - p / 100 + p / 400
    decreases y
  {
    if y > 1 {
      DaysBeforeYearClosedForm(y - 1);
      LeapDayCount(y - 1);
    }
  }

  /** Going from year `p - 1` to year `p`, the leap-day terms of the
      closed form grow by one exactly when `p` is a leap year. */
  lemma LeapDayCount(p: int)
    requires p >= 1
    ensures p / 4 - p / 100 + p / 400 == (p - 1) / 4 - (p - 1) / 100 + (p - 1) / 400 + (if IsLeap(p) then 1 else 0)
  {
    QuotientStep4(p);
    QuotientStep100(p);
    QuotientStep400(p);
  }

  /** The quotients by 4, 100 and 400 grow by one at the multiples. */
  lemma QuotientStep4(p: int)
    ensures p / 4 == (p - 1) / 4 + (if p % 4 == 0 then 1 else 0)
  {
  }

  lemma QuotientStep100(p: int)
    ensures p / 100 == (p - 1) / 100 + (if p % 100 == 0 then 1 else 0)
  {
  }

  lemma QuotientStep400(p: int)
    ensures p / 400 == (p - 1) / 400 + (if p % 400 == 0 then 1 else 0)
  {
  }

  lemma MonthStep(y: int, m: int)
    requires 1 <= m < 12
    ensures DaysBeforeMonth(y, m + 1) == DaysBeforeMonth(y, m) + DaysInMonth(y, m)
  {
  }

  lemma LastMonthStep(y: int)
    ensures DaysBeforeMonth(y, 12) + DaysInMonth(y, 12) == DaysInYear(y)
  {
  }

  /** `date + timedelta(days=1)`. */
  function NextDay(d: Date): (r: Date)
    requires ValidDate(d)
    ensures ValidDate(r) && Ordinal(r) == Ordinal(d) + 1
  {
    if d.day < DaysInMonth(d.year, d.month) then
      d.(day := d.day + 1)
    else if d.month < 12 then
      MonthStep(d.year, d.month);
      Date(d.year, d.month + 1, 1)
    else
      LastMonthStep(d.year);
      YearStep(d.year);
      Date(d.year + 1, 1, 1)
  }

  /** `date - timedelta(days=1)`; 0001-01-01, day 1, has no predecessor. */
  function PrevDay(d: Date): (r: Date)
    requires ValidDate(d) && Ordinal(d) > 1
    ensures ValidDate(r) && Ordinal(r) + 1 == Ordinal(d)
  {
    if d.day > 1 then
      d.(day := d.day - 1)
    else if d.month > 1 then
      MonthStep(d.year, d.month - 1);
      Date(d.year, d.month - 1, DaysInMonth(d.year, d.month - 1))
    else
      LastMonthStep(d.year - 1);
      YearStep(d.year - 1);
      Date(d.year - 1, 12, 31)
  }

  /** `date + timedelta(days=n)`. */
  function AddDays(d: Date, n: nat): (r: Date)
    requires ValidDate(d)
    ensures ValidDate(r) && Ordinal(r) == Ordinal(d) + n
    decreases n
  {
    if n == 0 then d else NextDay(AddDays(d, n - 1))
  }

  /** `date - timedelta(days=n)`, defined while the result stays in year 1 or later. */
  function SubDays(d: Date, n: nat): (r: Date)
    requires ValidDate(d) && n < Ordinal(d)
    ensures ValidDate(r) && Ordinal(r) + n == Ordinal(d)
    decreases n
  {
    if n == 0 then d
    else
      PrevDay(SubDays(d, n - 1))
  }

  /** Strict lexicographic order on (year, month, day). */
  predicate DateBefore(a: Date, b: Date)
  {
    a.year < b.year
    || (a.year == b.year && a.month < b.month)
    || (a.year == b.year && a.month == b.month && a.day < b.day)
  }

  /** A month ends before the next month of the same year begins. */
  lemma {:induction false} MonthsIncrease(y: int, m1: int, m2: int)
    requires 1 <= m1 < m2 <= 12
    ensures DaysBeforeMonth(y, m1) + DaysInMonth(y, m1) <= DaysBeforeMonth(y, m2)
    decreases m2 - m1
  {
    MonthStep(y, m1);
    if m1 + 1 < m2 {
      MonthsIncrease(y, m1 + 1, m2);
    }
  }

  /** A year ends before any later year begins. */
  lemma {:induction false} YearsIncrease(y1: int, y2: int)
    requires 1 <= y1 < y2
    ensures DaysBeforeYear(y1) + DaysInYear(y1) <= DaysBeforeYear(y2)
    decreases y2 - y1
  {
    YearStep(y1);
    if y1 + 1 < y2 {
      YearsIncrease(y1 + 1, y2);
      YearStep(y1 + 1);
    }
  }

  /** Every day of year `y` has an ordinal inside that year's range. */
  lemma OrdinalInYear(d: Date)
    requires ValidDate(d)
    ensures DaysBeforeYear(d.year) < Ordinal(d) <= DaysBeforeYear(d.year) + DaysInYear(d.year)
  {
    if d.month < 12 {
      MonthsIncrease(d.year, d.month, 12);
    }
    LastMonthStep(d.year);
  }

  /** `toordinal` is strictly increasing in calendar order. */
  lemma OrdinalMonotone(a: Date, b: Date)
    requires ValidDate(a) && ValidDate(b) && DateBefore(a, b)
    ensures Ordinal(a) < Ordinal(b)
  {
    if a.year < b.year {
      OrdinalInYear(a);
      OrdinalInYear(b);
      YearsIncrease(a.year, b.year);
    } else if a.month < b.month {
      MonthsIncrease(a.year, a.month, b.month);
    }
  }

  /** Two valid dates with the same ordinal are the same date. */
  lemma OrdinalInjective(a: Date, b: Date)
    requires ValidDate(a) && ValidDate(b) && Ordinal(a) == Ordinal(b)
    ensures a == b
  {
    if DateBefore(a, b) {
      OrdinalMonotone(a, b);
    } else if DateBefore(b, a) {
      OrdinalMonotone(b, a);
    }
  }

  /** One microsecond earlier: `t - timedelta(microseconds=1)`. */
  function MicroBefore(t: DateTime): (r: DateTime)
    requires ValidDateTime(t) && (t.micro > 0 || Ordinal(t.date) > 1)
    ensures ValidDateTime(r) && Timestamp(r) + 1 == Timestamp(t)
  {
    if t.micro > 0 then t.(micro := t.micro - 1)
    else DateTime(PrevDay(t.date), MicrosPerDay - 1)
  }

  function Pow10(k: nat): (p: nat)
    ensures p >= 1
  {
    if k == 0 then 1 else 10 * Pow10(k - 1)
  }

  function DigitValue(c: char): int
  {
    c as int - '0' as int
  }

  /** The number a text of decimal digits denotes, as `int(s)` reads it. */
  function Value(s: string): int
  {
    if s == [] then 0 else Value(s[..|s| - 1]) * 10 + DigitValue(s[|s| - 1])
  }

  function DigitChar(n: int): (c: char)
    requires 0 <= n < 10
    ensures '0' <= c <= '9' && DigitValue(c) == n
  {
    (('0' as int) + n) as char
  }

  /** Decimal text of `n` without leading zeros: it reads back as `n`. */
  function Decimal(n: nat): (s: string)
    ensures |s| >= 1 && Value(s) == n
    decreases n
  {
    if n < 10 then [DigitChar(n)]
    else
      var s := Decimal(n / 10) + [DigitChar(n % 10)];
      assert s[..|s| - 1] == Decimal(n / 10);
      s
  }

  /** A number below `10^w` takes at most `w` digits. */
  lemma {:induction false} DecimalLength(n: nat, w: nat)
    ensures 1 <= w && n < Pow10(w) ==> |Decimal(n)| <= w
    decreases n
  {
    if 1 <= w && n < Pow10(w) && n >= 10 {
      assert w >= 2;
      assert n / 10 < Pow10(w - 1);
      DecimalLength(n / 10, w - 1);
    }
  }

  /** Leading zeros do not change the number a text denotes. */
  lemma {:induction false} ValueLeadingZeros(k: nat, s: string)
    ensures Value(seq(k, _ => '0') + s) == Value(s)
    decreases |s|
  {
    var z: string := seq(k, _ => '0');
    if s == [] {
      Zeros(k);
      assert z + s == z;
    } else {
      var t := z + s;
      assert t[..|t| - 1] == z + s[..|s| - 1];
      ValueLeadingZeros(k, s[..|s| - 1]);
    }
  }

  lemma {:induction false} Zeros(k: nat)
    ensures Value(seq(k, _ => '0')) == 0
  {
    if k > 0 {
      var z: string := seq(k, _ => '0');
      assert z[..k - 1] == seq(k - 1, _ => '0');
      Zeros(k - 1);
    }
  }

  /** `"%0<width>d" % n`: reads back as `n`, and takes exactly `width`
      characters when `n` has at most `width` digits. */
  function ZeroPadded(n: nat, width: nat): (r: string)
    ensures Value(r) == n && |r| >= width
    ensures 1 <= width && n < Pow10(width) ==> |r| == width
  {
    var digits := Decimal(n);
    DecimalLength(n, width);
    if |digits| >= width then digits
    else
      ValueLeadingZeros(width - |digits|, digits);
      seq(width - |digits|, _ => '0') + digits
  }

  /** `datetime.isoformat()`: `YYYY-MM-DDTHH:MM:SS`, followed by
      `.ffffff` when the microsecond of the second is not zero. */
  function IsoFormat(t: DateTime): string
    requires ValidDateTime(t)
  {
    var hour := t.micro / 3_600_000_000;
    var minute := t.micro / 60_000_000 % 60;
    var second := t.micro / 1_000_000 % 60;
    var fraction := t.micro % 1_000_000;
    ZeroPadded(t.date.year, 4) + "-" + ZeroPadded(t.date.month, 2) + "-" + ZeroPadded(t.date.day, 2)
    + "T" + ZeroPadded(hour, 2) + ":" + ZeroPadded(minute, 2) + ":" + ZeroPadded(second, 2)
    + (if fraction != 0 then "." + ZeroPadded(fraction, 6) else "")
  }

  /** For years up to 9999 the ISO text has fixed fields that read back
      as the date and the time of day: `YYYY-MM-DDTHH:MM:SS`, with
      `.ffffff` only when the microsecond of the second is not zero. */
  lemma IsoFormatFields(t: DateTime)
    requires ValidDateTime(t) && t.date.year < 10000
    ensures var r := IsoFormat(t);
      && |r| == (if t.micro % 1_000_000 == 0 then 19 else 26)
      && Value(r[..4]) == t.date.year && r[4] == '-'
      && Value(r[5..7]) == t.date.month && r[7] == '-'
      && Value(r[8..10]) == t.date.day && r[10] == 'T'
      && Value(r[11..13]) == t.micro / 3_600_000_000 && r[13] == ':'
      && Value(r[14..16]) == t.micro / 60_000_000 % 60 && r[16] == ':'
      && Value(r[17..19]) == t.micro / 1_000_000 % 60
      && (t.micro % 1_000_000 != 0 ==> r[19] == '.' && Value(r[20..]) == t.micro % 1_000_000)
  {
    var hour := t.micro / 3_600_000_000;
    var minute := t.micro / 60_000_000 % 60;
    var second := t.micro / 1_000_000 % 60;
    var fraction := t.micro % 1_000_000;
    assert hour < 24 && minute < 60 && second < 60 && fraction < 1_000_000;
    assert Pow10(2) == 100 && Pow10(4) == 10000 && Pow10(6) == 1000000;
    var y, mo, d := ZeroPadded(t.date.year, 4), ZeroPadded(t.date.month, 2), ZeroPadded(t.date.day, 2);
    var h, mi, se := ZeroPadded(hour, 2), ZeroPadded(minute, 2), ZeroPadded(second, 2);
    var tail := if fraction != 0 then "." + ZeroPadded(fraction, 6) else "";
    assert |tail| == if fraction != 0 then 7 else 0;
    IsoLayout(y, mo, d, h, mi, se, tail);
    var r := y + "-" + mo + "-" + d + "T" + h + ":" + mi + ":" + se + tail;
    assert IsoFormat(t) == r;
    if fraction != 0 {
      assert r[20..] == tail[1..] == ZeroPadded(fraction, 6);
    }
  }

  /** Where the fields of fixed width sit in the ISO text. */
  lemma IsoLayout(y: string, mo: string, d: string, h: string, mi: string, se: string, tail: string)
    requires |y| == 4 && |mo| == 2 && |d| == 2 && |h| == 2 && |mi| == 2 && |se| == 2
    ensures var r := y + "-" + mo + "-" + d + "T" + h + ":" + mi + ":" + se + tail;
      && |r| == 19 + |tail|
      && r[..4] == y && r[4] == '-' && r[5..7] == mo && r[7] == '-' && r[8..10] == d && r[10] == 'T'
      && r[11..13] == h && r[13] == ':' && r[14..16] == mi && r[16] == ':' && r[17..19] == se
      && r[19..] == tail
  {
  }

  /** Instants are ordered first by day: an earlier timestamp is never on a later day. */
  lemma TimestampDayOrder(a: DateTime, b: DateTime)
    requires ValidDateTime(a) && ValidDateTime(b) && Timestamp(a) <= Timestamp(b)
    ensures Ordinal(a.date) <= Ordinal(b.date)
  {
  }
}

/**
 * The proleptic Gregorian calendar, day numbers counted from 1970-01-01, the
 * ISO 8601 calendar-date text `YYYY-MM-DD` (extended complete representation,
 * section 4.1.2.2 of ISO 8601:2004) as ECMAScript's Date.prototype.toISOString
 * prints it, and the handler's `getKSTDate`.
 */
module Calendar {
  import opened Wrappers
  import opened Text

  const MsPerDay: int := 86_400_000
  /** Korea Standard Time is UTC+9. */
  const KstOffsetMs: int := 9 * 60 * 60 * 1000
  /** ECMAScript time values are limited to +-8.64e15 ms around the epoch. */
  const MaxTimeMs: int := 8_640_000_000_000_000

  predicate IsLeap(y: int) {
    y % 4 == 0 && (y % 100 != 0 || y % 400 == 0)
  }

  function DaysInYear(y: int): nat {
    if IsLeap(y) then 366 else 365
  }

  /** Day number of January 1st of year `y`. */
  function YearStart(y: int): int
    decreases if y >= 1970 then y - 1970 else 1970 - y
  {
    if y == 1970 then 0
    else if y > 1970 then YearStart(y - 1) + DaysInYear(y - 1)
    else YearStart(y + 1) - DaysInYear(y)
  }

  lemma YearStartStep(y: int)
    ensures YearStart(y + 1) == YearStart(y) + DaysInYear(y)
  {
  }

  lemma {:induction false} YearStartGrows(a: int, b: int)
    requires a <= b
    ensures YearStart(a) + 365 * (b - a) <= YearStart(b)
    decreases b - a
  {
    if a < b {
      YearStartGrows(a, b - 1);
      YearStartStep(b - 1);
    }
  }

  /** Years partition the day numbers: a (year, day-of-year) pair is unique. */
  lemma YearOfDayUnique(y: int, k: int, y2: int, k2: int)
    requires 0 <= k < DaysInYear(y) && 0 <= k2 < DaysInYear(y2)
    requires YearStart(y) + k == YearStart(y2) + k2
    ensures y == y2 && k == k2
  {
    if y < y2 {
      YearStartGrows(y + 1, y2);
      YearStartStep(y);
    } else if y2 < y {
      YearStartGrows(y2 + 1, y);
      YearStartStep(y2);
    }
  }

  /**
   * The year holding day `n` counted from January 1st of year `y`, and the
   * day's 0-based position in that year.
   */
  function Locate(y: int, n: int): (r: (int, int))
    ensures 0 <= r.1 < DaysInYear(r.0)
    ensures YearStart(r.0) + r.1 == YearStart(y) + n
    decreases if n < 0 then 1000 - n else n
  {
    if 0 <= n < DaysInYear(y) then (y, n)
    else if n >= DaysInYear(y) then
      YearStartStep(y);
      Locate(y + 1, n - DaysInYear(y))
    else
      YearStartStep(y - 1);
      Locate(y - 1, n + DaysInYear(y - 1))
  }

  function MonthLength(y: int, m: int): nat
    requires 1 <= m <= 12
  {
    if m == 2 then (if IsLeap(y) then 29 else 28)
    else if m == 4 || m == 6 || m == 9 || m == 11 then 30
    else 31
  }

  /** Days of year `y` that come before the first of month `m`. */
  function DaysBeforeMonth(y: int, m: int): nat
    requires 1 <= m <= 12
  {
    [0, 31, 59, 90, 120, 151, 181, 212, 243, 273, 304, 334][m - 1]
    + (if m > 2 && IsLeap(y) then 1 else 0)
  }

  lemma DaysBeforeMonthStep(y: int, m: int)
    requires 1 <= m <= 12
    ensures m < 12 ==> DaysBeforeMonth(y, m + 1) == DaysBeforeMonth(y, m) + MonthLength(y, m)
    ensures m == 12 ==> DaysBeforeMonth(y, m) + MonthLength(y, m) == DaysInYear(y)
  {
  }

  lemma {:induction false} DaysBeforeMonthGrows(y: int, m: int, m2: int)
    requires 1 <= m < m2 <= 12
    ensures DaysBeforeMonth(y, m) + MonthLength(y, m) <= DaysBeforeMonth(y, m2)
    decreases m2 - m
  {
    DaysBeforeMonthStep(y, m);
    if m + 1 < m2 {
      DaysBeforeMonthGrows(y, m + 1, m2);
    }
  }

  /** The month holding day-of-year `DaysBeforeMonth(y, m) + k`, and the day's 0-based position in it. */
  function LocateMonth(y: int, m: int, k: int): (r: (int, int))
    requires 1 <= m <= 12
    requires 0 <= k && DaysBeforeMonth(y, m) + k < DaysInYear(y)
    ensures 1 <= r.0 <= 12 && 0 <= r.1 < MonthLength(y, r.0)
    ensures DaysBeforeMonth(y, r.0) + r.1 == DaysBeforeMonth(y, m) + k
    decreases 12 - m
  {
    DaysBeforeMonthStep(y, m);
    if k < MonthLength(y, m) then (m, k)
    else LocateMonth(y, m + 1, k - MonthLength(y, m))
  }

  datatype Date = Date(year: int, month: int, day: int)

  predicate ValidDate(d: Date) {
    1 <= d.month <= 12 && 1 <= d.day <= MonthLength(d.year, d.month)
  }

  /** Days since 1970-01-01 (negative before it). */
  function DayNumber(d: Date): int
    requires ValidDate(d)
  {
    YearStart(d.year) + DaysBeforeMonth(d.year, d.month) + d.day - 1
  }

  /** The calendar date of day number `n`. */
  function DateOf(n: int): (d: Date)
    ensures ValidDate(d) && DayNumber(d) == n
  {
    var (y, k) := Locate(1970, n);
    DaysBeforeMonthStep(y, 1);
    var (m, j) := LocateMonth(y, 1, k);
    Date(y, m, j + 1)
  }

  /** DateOf and DayNumber are inverse bijections between valid dates and integers. */
  lemma DateOfDayNumber(d: Date)
    requires ValidDate(d)
    ensures DateOf(DayNumber(d)) == d
  {
    var e := DateOf(DayNumber(d));
    DaysBeforeMonthStep(d.year, 12);
    DaysBeforeMonthStep(e.year, 12);
    if d.month < 12 { DaysBeforeMonthGrows(d.year, d.month, 12); }
    if e.month < 12 { DaysBeforeMonthGrows(e.year, e.month, 12); }
    YearOfDayUnique(d.year, DaysBeforeMonth(d.year, d.month) + d.day - 1,
                    e.year, DaysBeforeMonth(e.year, e.month) + e.day - 1);
    if d.month < e.month {
      DaysBeforeMonthGrows(d.year, d.month, e.month);
    } else if e.month < d.month {
      DaysBeforeMonthGrows(d.year, e.month, d.month);
    }
  }

  /** Days are ordered the way their dates are ordered (year, then month, then day). */
  predicate DateBefore(a: Date, b: Date) {
    a.year < b.year || (a.year == b.year && (a.month < b.month || (a.month == b.month && a.day < b.day)))
  }

  lemma DayNumberOrder(a: Date, b: Date)
    requires ValidDate(a) && ValidDate(b)
    ensures DayNumber(a) < DayNumber(b) <==> DateBefore(a, b)
  {
    DaysBeforeMonthStep(a.year, 12);
    DaysBeforeMonthStep(b.year, 12);
    if a.month < 12 { DaysBeforeMonthGrows(a.year, a.month, 12); }
    if b.month < 12 { DaysBeforeMonthGrows(b.year, b.month, 12); }
    if a.year < b.year {
      YearStartGrows(a.year + 1, b.year);
      YearStartStep(a.year);
    } else if b.year < a.year {
      YearStartGrows(b.year + 1, a.year);
      YearStartStep(b.year);
    } else if a.month < b.month {
      DaysBeforeMonthGrows(a.year, a.month, b.month);
    } else if b.month < a.month {
      DaysBeforeMonthGrows(a.year, b.month, a.month);
    }
  }

  // ---- Decimal digits ----

  function Pow10(w: nat): (p: nat)
    ensures p >= 1
  {
    if w == 0 then 1 else 10 * Pow10(w - 1)
  }

  /** The last `w` decimal digits of `n`, padded with leading zeros. */
  function PadDigits(n: nat, w: nat): (s: string)
    ensures |s| == w
    ensures forall i :: 0 <= i < |s| ==> IsDigit(s[i])
  {
    if w == 0 then "" else PadDigits(n / 10, w - 1) + [DigitChar(n % 10)]
  }

  lemma {:induction false} PadDigitsValue(n: nat, w: nat)
    requires n < Pow10(w)
    ensures DigitsValue(PadDigits(n, w)) == n
  {
    if w > 0 {
      var s := PadDigits(n, w);
      assert n / 10 < Pow10(w - 1);
      PadDigitsValue(n / 10, w - 1);
      assert s[..|s| - 1] == PadDigits(n / 10, w - 1);
    }
  }

  // ---- ISO 8601 calendar dates ----

  /** Years toISOString can print: four digits for 0..9999, a sign and six digits otherwise. */
  predicate PrintableYear(y: int) {
    -999_999 <= y <= 999_999
  }

  function FormatYear(y: int): (s: string)
    requires PrintableYear(y)
  {
    if 0 <= y <= 9999 then PadDigits(y, 4)
    else if y < 0 then "-" + PadDigits(-y, 6)
    else "+" + PadDigits(y, 6)
  }

  /** `YYYY-MM-DD`, the date part of toISOString's output. */
  function FormatIso(d: Date): (s: string)
    requires ValidDate(d) && PrintableYear(d.year)
  {
    FormatYear(d.year) + "-" + PadDigits(d.month, 2) + "-" + PadDigits(d.day, 2)
  }

  function ParseYear(s: string): Option<int> {
    if |s| == 4 && AllDigits(s) then Some(DigitsValue(s))
    else if |s| == 7 && (s[0] == '+' || s[0] == '-') && AllDigits(s[1..]) then
      var v: int := DigitsValue(s[1..]);
      Some(if s[0] == '-' then -v else v)
    else None
  }

  /** Reads `YYYY-MM-DD` (or the six-digit signed year form) back into a valid date. */
  function ParseIso(s: string): (r: Option<Date>)
    ensures r.Some? ==> ValidDate(r.value)
  {
    if |s| < 10 then None
    else
      var n := |s|;
      var ys, ms, ds := s[..n - 6], s[n - 5..n - 3], s[n - 2..];
      if s[n - 6] != '-' || s[n - 3] != '-' || !AllDigits(ms) || !AllDigits(ds) then None
      else match ParseYear(ys)
        case None => None
        case Some(y) =>
          var d := Date(y, DigitsValue(ms), DigitsValue(ds));
          if ValidDate(d) then Some(d) else None
  }

  lemma FormatYearRoundTrip(y: int)
    requires PrintableYear(y)
    ensures ParseYear(FormatYear(y)) == Some(y)
  {
    var s := FormatYear(y);
    if 0 <= y <= 9999 {
      PadDigitsValue(y, 4);
    } else if y < 0 {
      PadDigitsValue(-y, 6);
      assert s[1..] == PadDigits(-y, 6);
    } else {
      PadDigitsValue(y, 6);
      assert s[1..] == PadDigits(y, 6);
    }
  }

  lemma ParseIsoParts(ys: string, ms: string, ds: string)
    requires |ys| >= 4 && |ms| == 2 && |ds| == 2 && AllDigits(ms) && AllDigits(ds)
    ensures ParseIso(ys + "-" + ms + "-" + ds)
            == match ParseYear(ys)
               case None => None
               case Some(y) =>
                 var d := Date(y, DigitsValue(ms), DigitsValue(ds));
                 if ValidDate(d) then Some(d) else None
  {
    var s := ys + "-" + ms + "-" + ds;
    var n := |s|;
    assert s[..n - 6] == ys;
    assert s[n - 5..n - 3] == ms;
    assert s[n - 2..] == ds;
    assert s[n - 6] == '-' && s[n - 3] == '-';
  }

  lemma FormatIsoRoundTrip(d: Date)
    requires ValidDate(d) && PrintableYear(d.year)
    ensures ParseIso(FormatIso(d)) == Some(d)
  {
    PadDigitsValue(d.month, 2);
    PadDigitsValue(d.day, 2);
    FormatYearRoundTrip(d.year);
    ParseIsoParts(FormatYear(d.year), PadDigits(d.month, 2), PadDigits(d.day, 2));
  }

  // ---- Text order of ISO dates ----

  /**
   * Text order as SQLite's BINARY collation compares TEXT: character by
   * character, a proper prefix first. On the ASCII text of a date, byte order
   * and code-point order agree.
   */
  predicate TextBefore(a: string, b: string) {
    if a == [] then b != []
    else b != [] && (a[0] < b[0] || (a[0] == b[0] && TextBefore(a[1..], b[1..])))
  }

  /** Comparing two texts with equally long heads: the heads decide, and only equal heads defer to the tails. */
  lemma {:induction false} TextBeforeConcat(x: string, s: string, y: string, t: string)
    requires |x| == |y|
    ensures TextBefore(x + s, y + t) <==> TextBefore(x, y) || (x == y && TextBefore(s, t))
  {
    if x == [] {
      assert x + s == s && y + t == t;
    } else {
      assert (x + s)[0] == x[0] && (y + t)[0] == y[0];
      assert (x + s)[1..] == x[1..] + s && (y + t)[1..] == y[1..] + t;
      TextBeforeConcat(x[1..], s, y[1..], t);
      if x[0] == y[0] && x[1..] == y[1..] {
        assert x == [x[0]] + x[1..] && y == [y[0]] + y[1..];
      }
    }
  }

  /** Zero-padded numerals of one width sort as their values do. */
  lemma {:induction false} PadDigitsOrder(m: nat, n: nat, w: nat)
    requires m < Pow10(w) && n < Pow10(w)
    ensures TextBefore(PadDigits(m, w), PadDigits(n, w)) <==> m < n
    ensures PadDigits(m, w) == PadDigits(n, w) <==> m == n
  {
    PadDigitsValue(m, w);
    PadDigitsValue(n, w);
    if w > 0 {
      var pm, pn := PadDigits(m / 10, w - 1), PadDigits(n / 10, w - 1);
      var cm, cn := DigitChar(m % 10), DigitChar(n % 10);
      PadDigitsOrder(m / 10, n / 10, w - 1);
      TextBeforeConcat(pm, [cm], pn, [cn]);
      assert TextBefore([cm], [cn]) <==> m % 10 < n % 10 by {
        assert [cm][1..] == [] && [cn][1..] == [];
      }
      assert m == 10 * (m / 10) + m % 10 && n == 10 * (n / 10) + n % 10;
    }
  }

  /** `YYYY-MM-DD`: ten characters, digits everywhere but the two hyphens. */
  predicate IsoDateText(s: string) {
    && |s| == 10 && s[4] == '-' && s[7] == '-'
    && forall i :: 0 <= i < 10 && i != 4 && i != 7 ==> IsDigit(s[i])
  }

  /** Dates of the years 0 to 9999 print as `YYYY-MM-DD`. */
  lemma FormatIsoShape(d: Date)
    requires ValidDate(d)
    ensures 0 <= d.year <= 9999 ==> IsoDateText(FormatIso(d))
  {
    if !(0 <= d.year <= 9999) { return; }
    var s := FormatIso(d);
    var y, m, dd := PadDigits(d.year, 4), PadDigits(d.month, 2), PadDigits(d.day, 2);
    assert s == y + "-" + m + "-" + dd;
    forall i | 0 <= i < 10 && i != 4 && i != 7 ensures IsDigit(s[i]) {
      if i < 4 { assert s[i] == y[i]; }
      else if i < 7 { assert s[i] == m[i - 5]; }
      else { assert s[i] == dd[i - 8]; }
    }
  }

  /** For the years 0 to 9999 the text order of `YYYY-MM-DD` is the calendar order. */
  lemma FormatIsoOrder(a: Date, b: Date)
    requires ValidDate(a) && ValidDate(b) && 0 <= a.year <= 9999 && 0 <= b.year <= 9999
    ensures TextBefore(FormatIso(a), FormatIso(b)) <==> DateBefore(a, b)
    ensures FormatIso(a) == FormatIso(b) <==> a == b
  {
    var ya, yb := PadDigits(a.year, 4), PadDigits(b.year, 4);
    var ta, tb := MonthDayText(a), MonthDayText(b);
    PadDigitsOrder(a.year, b.year, 4);
    MonthDayOrder(a, b);
    FormatIsoSplit(a);
    FormatIsoSplit(b);
    TextBeforeConcat(ya, ta, yb, tb);
    ConcatEqual(ya, ta, yb, tb);
  }

  /** A four-digit year followed by `-MM-DD`. */
  lemma FormatIsoSplit(d: Date)
    requires ValidDate(d) && 0 <= d.year <= 9999
    ensures FormatIso(d) == PadDigits(d.year, 4) + MonthDayText(d)
  {
  }

  /** Texts with equally long heads are equal exactly when heads and tails are. */
  lemma ConcatEqual(x: string, s: string, y: string, t: string)
    requires |x| == |y|
    ensures x + s == y + t <==> x == y && s == t
  {
    if x + s == y + t {
      assert x == (x + s)[..|x|] && y == (y + t)[..|y|];
      assert s == (x + s)[|x|..] && t == (y + t)[|y|..];
    }
  }

  /** `-MM-DD`, the text after the year. */
  function MonthDayText(d: Date): string
    requires ValidDate(d)
  {
    "-" + (PadDigits(d.month, 2) + ("-" + PadDigits(d.day, 2)))
  }

  /** The text after the year sorts by month, then day. */
  lemma MonthDayOrder(a: Date, b: Date)
    requires ValidDate(a) && ValidDate(b)
    ensures TextBefore(MonthDayText(a), MonthDayText(b))
            <==> a.month < b.month || (a.month == b.month && a.day < b.day)
    ensures MonthDayText(a) == MonthDayText(b) <==> a.month == b.month && a.day == b.day
  {
    var ma, da := PadDigits(a.month, 2), PadDigits(a.day, 2);
    var mb, db := PadDigits(b.month, 2), PadDigits(b.day, 2);
    PadDigitsOrder(a.month, b.month, 2);
    PadDigitsOrder(a.day, b.day, 2);
    TextBeforeConcat("-", ma + ("-" + da), "-", mb + ("-" + db));
    TextBeforeConcat(ma, "-" + da, mb, "-" + db);
    TextBeforeConcat("-", da, "-", db);
    if MonthDayText(a) == MonthDayText(b) {
      assert MonthDayText(a)[1..3] == ma && MonthDayText(b)[1..3] == mb;
      assert MonthDayText(a)[4..] == da && MonthDayText(b)[4..] == db;
    }
  }

  /**
   * A rank date held as a day number compares the way its stored text does,
   * so `MAX(rank_date)` and `ORDER BY rank_date` on the text pick the latest
   * and order by day, for the years 0 to 9999.
   */
  lemma RankDateTextOrder(m: int, n: int)
    requires 0 <= DateOf(m).year <= 9999 && 0 <= DateOf(n).year <= 9999
    ensures TextBefore(FormatIso(DateOf(m)), FormatIso(DateOf(n))) <==> m < n
    ensures FormatIso(DateOf(m)) == FormatIso(DateOf(n)) <==> m == n
  {
    FormatIsoOrder(DateOf(m), DateOf(n));
    DayNumberOrder(DateOf(m), DateOf(n));
  }

  // ---- getKSTDate ----

  datatype DateError = InvalidTimeValue

  /** The UTC+9 day number of the instant `nowMs + offsetDays` days (floor division, as toISOString truncates to the day). */
  function KstDay(nowMs: int, offsetDays: int): int {
    (nowMs + KstOffsetMs + offsetDays * MsPerDay) / MsPerDay
  }

  lemma KstDayShift(nowMs: int, offsetDays: int)
    ensures KstDay(nowMs, offsetDays) == KstDay(nowMs, 0) + offsetDays
  {
    var x := nowMs + KstOffsetMs;
    assert (x + offsetDays * MsPerDay) / MsPerDay == x / MsPerDay + offsetDays by {
      var q, r := x / MsPerDay, x % MsPerDay;
      assert x + offsetDays * MsPerDay == (q + offsetDays) * MsPerDay + r;
    }
  }

  /** Day numbers inside ECMAScript's time range have printable years. */
  lemma {:induction false} TimeRangeYears(n: int)
    requires -100_000_001 <= n <= 100_000_001
    ensures PrintableYear(DateOf(n).year)
  {
    var y := DateOf(n).year;
    var (y1, k) := Locate(1970, n);
    assert y == y1;
    if y > 999_999 {
      YearStartGrows(1970, y);
    } else if y < -999_999 {
      YearStartGrows(y, 1970);
    }
  }

  /**
   * getKSTDate(offsetDays) on a clock reading `nowMs`: the ISO date of the UTC
   * calendar day holding now + 9 hours + offsetDays days; a time value outside
   * ECMAScript's range makes toISOString throw.
   */
  function GetKstDate(nowMs: int, offsetDays: int): (r: Result<string, DateError>)
    ensures var t := nowMs + KstOffsetMs + offsetDays * MsPerDay;
            r.Ok? <==> -MaxTimeMs <= t <= MaxTimeMs
    ensures r.Ok? ==> exists d :: ParseIso(r.value) == Some(d) && DayNumber(d) == KstDay(nowMs, offsetDays)
    ensures r.Ok? ==> var d := DateOf(KstDay(nowMs, offsetDays)); PrintableYear(d.year) && r.value == FormatIso(d)
    ensures r.Ok? && 0 <= DateOf(KstDay(nowMs, offsetDays)).year <= 9999 ==> IsoDateText(r.value)
  {
    var t := nowMs + KstOffsetMs + offsetDays * MsPerDay;
    if t < -MaxTimeMs || t > MaxTimeMs then Err(InvalidTimeValue)
    else
      var d := DateOf(t / MsPerDay);
      TimeRangeYears(t / MsPerDay);
      FormatIsoRoundTrip(d);
      FormatIsoShape(d);
      Ok(FormatIso(d))
  }

  /** For the same clock reading, getKSTDate(k) names the day exactly k days after getKSTDate(0). */
  lemma KstDateOffset(nowMs: int, offsetDays: int)
    requires -MaxTimeMs <= nowMs + KstOffsetMs <= MaxTimeMs
    requires -MaxTimeMs <= nowMs + KstOffsetMs + offsetDays * MsPerDay <= MaxTimeMs
    ensures GetKstDate(nowMs, 0).Ok? && GetKstDate(nowMs, offsetDays).Ok?
    ensures var d0 := ParseIso(GetKstDate(nowMs, 0).value);
            var dk := ParseIso(GetKstDate(nowMs, offsetDays).value);
      && d0.Some? && dk.Some?
      && DayNumber(dk.value) == DayNumber(d0.value) + offsetDays
      && dk.value == DateOf(DayNumber(d0.value) + offsetDays)
  {
    KstDayShift(nowMs, offsetDays);
    var dk := ParseIso(GetKstDate(nowMs, offsetDays).value).value;
    DateOfDayNumber(dk);
  }
}

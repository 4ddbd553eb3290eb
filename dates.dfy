/** Calendar dates as datetime.strptime parses them and datetime.strftime
    prints them, day numbers for comparing and subtracting dates, and moments
    (a date plus the time of day) for the "now" that the predicates compare against. */
module Dates {
  import opened Wrappers

  /** The (day, month, year) triple that strptime extracts from a date string. */
  datatype Date = Date(day: int, month: int, year: int)

  const MinYear := 1     // datetime.MINYEAR
  const MaxYear := 9999  // datetime.MAXYEAR

  predicate IsLeapYear(y: int) {
    y % 4 == 0 && (y % 100 != 0 || y % 400 == 0)
  }

  function DaysInMonth(month: int, year: int): int {
    if month == 2 then (if IsLeapYear(year) then 29 else 28)
    else if month == 4 || month == 6 || month == 9 || month == 11 then 30
    else 31
  }

  /** The dates a Python `date` can hold: the proleptic Gregorian calendar, years 1..9999. */
  predicate ValidDate(d: Date) {
    MinYear <= d.year <= MaxYear && 1 <= d.month <= 12 && 1 <= d.day <= DaysInMonth(d.month, d.year)
  }

  type CalendarDate = d: Date | ValidDate(d) witness Date(1, 1, 1)

  const FirstDate: CalendarDate := Date(1, 1, MinYear)
  const LastDate: CalendarDate := Date(31, 12, MaxYear)

  function DaysInYear(y: int): int {
    if IsLeapYear(y) then 366 else 365
  }

  function DaysBeforeYear(y: int): nat
    requires y >= 1
    decreases y
  {
    if y == 1 then 0 else DaysBeforeYear(y - 1) + DaysInYear(y - 1)
  }

  /** The table of days before the first of each month, plus one after February in a leap year. */
  function DaysBeforeMonth(m: int, y: int): nat {
    var common :=
      if m <= 1 then 0 else if m == 2 then 31 else if m == 3 then 59 else if m == 4 then 90
      else if m == 5 then 120 else if m == 6 then 151 else if m == 7 then 181 else if m == 8 then 212
      else if m == 9 then 243 else if m == 10 then 273 else if m == 11 then 304 else 334;
    common + (if m > 2 && IsLeapYear(y) then 1 else 0)
  }

  /** The day number of a date, counting 01.01.0001 as day 1 (date.toordinal()). */
  function Ordinal(d: Date): int
    requires ValidDate(d)
  {
    DaysBeforeYear(d.year) + DaysBeforeMonth(d.month, d.year) + d.day
  }

  /** The recursive count of days before a year agrees with the closed form
      365 (y - 1) + (y - 1) / 4 - (y - 1) / 100 + (y - 1) / 400. */
  lemma {:induction false} DaysBeforeYearClosedForm(y: int)
    requires y >= 1
    ensures DaysBeforeYear(y) == 365 * (y - 1) + (y - 1) / 4 - (y - 1) / 100 + (y - 1) / 400
    decreases y
  {
    if y > 1 {
      DaysBeforeYearClosedForm(y - 1);
      LeapYearCount(y - 1);
    }
  }

  /** Going from year n - 1 to year n, the counts of multiples of 4, 100 and 400
      grow by one exactly where n is such a multiple, and the net growth is the leap day of n. */
  lemma LeapYearCount(n: int)
    requires n >= 1
    ensures n / 4 - (n - 1) / 4 - (n / 100 - (n - 1) / 100) + n / 400 - (n - 1) / 400 == DaysInYear(n) - 365
  {
    DivStep(n, 4);
    DivStep(n, 100);
    DivStep(n, 400);
    if n % 100 == 0 {
      DivModUnique(n, 4, 25 * (n / 100), 0);
    }
    if n % 400 == 0 {
      DivModUnique(n, 100, 4 * (n / 400), 0);
    }
  }

  /** The quotient by `d` grows by one exactly at the multiples of `d`. */
  lemma DivStep(n: int, d: int)
    requires n >= 1 && d > 0
    ensures n / d == (n - 1) / d + (if n % d == 0 then 1 else 0)
  {
    var q, r := (n - 1) / d, (n - 1) % d;
    if r + 1 < d {
      DivModUnique(n, d, q, r + 1);
    } else {
      assert n == (q + 1) * d;
      DivModUnique(n, d, q + 1, 0);
    }
  }

  /** Euclidean division has one quotient and one remainder. */
  lemma DivModUnique(x: int, d: int, q: int, r: int)
    requires d > 0 && 0 <= r < d && x == q * d + r
    ensures x / d == q && x % d == r
  {
    var q', r' := x / d, x % d;
    assert (q - q') * d == r' - r;
    if q - q' >= 1 {
      MulAtLeast(q - q', d);
    } else if q' - q >= 1 {
      MulAtLeast(q' - q, d);
    }
  }

  lemma MulAtLeast(a: int, d: int)
    requires a >= 1 && d > 0
    ensures a * d >= d
  {
  }

  lemma DaysBeforeMonthStep(m: int, y: int)
    requires 1 <= m < 12
    ensures DaysBeforeMonth(m + 1, y) == DaysBeforeMonth(m, y) + DaysInMonth(m, y)
  {
  }

  lemma DaysBeforeMonthMonotonic(m1: int, m2: int, y: int)
    requires 1 <= m1 < m2 <= 12
    ensures DaysBeforeMonth(m1, y) + DaysInMonth(m1, y) <= DaysBeforeMonth(m2, y)
  {
  }

  lemma {:induction false} DaysBeforeYearMonotonic(y1: int, y2: int)
    requires 1 <= y1 < y2
    ensures DaysBeforeYear(y1) + DaysInYear(y1) <= DaysBeforeYear(y2)
    decreases y2
  {
    if y1 < y2 - 1 {
      DaysBeforeYearMonotonic(y1, y2 - 1);
    }
  }

  /** `a` is an earlier calendar date than `b`: compared by year, then month, then day. */
  predicate Precedes(a: Date, b: Date) {
    || a.year < b.year
    || (a.year == b.year && a.month < b.month)
    || (a.year == b.year && a.month == b.month && a.day < b.day)
  }

  lemma OrdinalPreservesOrder(a: Date, b: Date)
    requires ValidDate(a) && ValidDate(b) && Precedes(a, b)
    ensures Ordinal(a) < Ordinal(b)
  {
    assert DaysBeforeMonth(a.month, a.year) + DaysInMonth(a.month, a.year) <= DaysInYear(a.year);
    if a.year < b.year {
      DaysBeforeYearMonotonic(a.year, b.year);
    } else if a.month < b.month {
      DaysBeforeMonthMonotonic(a.month, b.month, a.year);
    }
  }

  /** Day numbers order dates as the calendar does, and two valid dates share a
      day number only when they are the same date. */
  lemma OrdinalOrderIff(a: Date, b: Date)
    requires ValidDate(a) && ValidDate(b)
    ensures Ordinal(a) < Ordinal(b) <==> Precedes(a, b)
    ensures Ordinal(a) == Ordinal(b) <==> a == b
  {
    if Precedes(a, b) {
      OrdinalPreservesOrder(a, b);
    } else if Precedes(b, a) {
      OrdinalPreservesOrder(b, a);
    }
  }

  lemma OrdinalBounds(d: Date)
    requires ValidDate(d)
    ensures 1 <= Ordinal(d) <= Ordinal(LastDate)
  {
    if d != LastDate {
      OrdinalOrderIff(d, LastDate);
    }
  }

  function NextDay(d: Date): Date {
    if d.day < DaysInMonth(d.month, d.year) then Date(d.day + 1, d.month, d.year)
    else if d.month < 12 then Date(1, d.month + 1, d.year)
    else Date(1, 1, d.year + 1)
  }

  function PrevDay(d: Date): Date {
    if d.day > 1 then Date(d.day - 1, d.month, d.year)
    else if d.month > 1 then Date(DaysInMonth(d.month - 1, d.year), d.month - 1, d.year)
    else Date(31, 12, d.year - 1)
  }

  lemma NextDayOrdinal(d: Date)
    requires ValidDate(d) && d != LastDate
    ensures ValidDate(NextDay(d)) && Ordinal(NextDay(d)) == Ordinal(d) + 1
  {
    if d.day == DaysInMonth(d.month, d.year) && d.month < 12 {
      DaysBeforeMonthStep(d.month, d.year);
    }
  }

  lemma PrevDayOrdinal(d: Date)
    requires ValidDate(d) && d != FirstDate
    ensures ValidDate(PrevDay(d)) && Ordinal(PrevDay(d)) == Ordinal(d) - 1
  {
    if d.day == 1 && d.month > 1 {
      DaysBeforeMonthStep(d.month - 1, d.year);
    }
  }

  /** `d + timedelta(days=k)`: the date `k` days later (earlier for negative `k`),
      or None where Python raises OverflowError because the result leaves years 1..9999. */
  function AddDays(d: Date, k: int): (r: Option<Date>)
    requires ValidDate(d)
    ensures r.Some? <==> 1 <= Ordinal(d) + k <= Ordinal(LastDate)
    ensures r.Some? ==> ValidDate(r.value) && Ordinal(r.value) == Ordinal(d) + k
    decreases if k < 0 then -k else k
  {
    OrdinalBounds(d);
    if k == 0 then Some(d)
    else if k > 0 then
      if d == LastDate then None
      else NextDayOrdinal(d); AddDays(NextDay(d), k - 1)
    else
      if d == FirstDate then None
      else PrevDayOrdinal(d); AddDays(PrevDay(d), k + 1)
  }

  // ---- Digits, strftime's zero padding and strptime's fields ----

  predicate IsDigit(c: char) {
    '0' <= c <= '9'
  }

  predicate AllDigits(s: string) {
    forall i | 0 <= i < |s| :: IsDigit(s[i])
  }

  function DigitValue(c: char): int
    requires IsDigit(c)
  {
    c as int - '0' as int
  }

  function DigitChar(n: int): char
    requires 0 <= n <= 9
  {
    ('0' as int + n) as char
  }

  /** strftime's %d and %m: two digits, zero-padded. */
  function Pad2(n: int): string
    requires 0 <= n <= 99
  {
    [DigitChar(n / 10), DigitChar(n % 10)]
  }

  /** strftime's %Y, zero-padded to four digits. */
  function Pad4(n: int): string
    requires 0 <= n <= 9999
  {
    Pad2(n / 100) + Pad2(n % 100)
  }

  /** The spellings strptime's %d accepts for day `n`: the regular expression
      3[01]|[12]\d|0[1-9]|[1-9]| [1-9]. */
  function DaySpellings(n: int): set<string>
    requires 1 <= n <= 31
  {
    {Pad2(n)} + (if n <= 9 then {[DigitChar(n)], [' ', DigitChar(n)]} else {})
  }

  /** The spellings strptime's %m accepts for month `n`: 1[0-2]|0[1-9]|[1-9]. */
  function MonthSpellings(n: int): set<string>
    requires 1 <= n <= 12
  {
    {Pad2(n)} + (if n <= 9 then {[DigitChar(n)]} else {})
  }

  function TwoDigitValue(t: string): int
    requires |t| == 2 && AllDigits(t)
  {
    10 * DigitValue(t[0]) + DigitValue(t[1])
  }

  /** The %d field: two digits 01..31, one digit 1..9, or a space and one digit. */
  function DayField(t: string): Option<int> {
    if |t| == 2 && AllDigits(t) && 1 <= TwoDigitValue(t) <= 31 then Some(TwoDigitValue(t))
    else if |t| == 1 && '1' <= t[0] <= '9' then Some(DigitValue(t[0]))
    else if |t| == 2 && t[0] == ' ' && '1' <= t[1] <= '9' then Some(DigitValue(t[1]))
    else None
  }

  /** The %m field: two digits 01..12 or one digit 1..9. */
  function MonthField(t: string): Option<int> {
    if |t| == 2 && AllDigits(t) && 1 <= TwoDigitValue(t) <= 12 then Some(TwoDigitValue(t))
    else if |t| == 1 && '1' <= t[0] <= '9' then Some(DigitValue(t[0]))
    else None
  }

  /** The %Y field: exactly four digits. */
  function YearField(t: string): Option<int> {
    if |t| == 4 && AllDigits(t) then Some(100 * TwoDigitValue(t[..2]) + TwoDigitValue(t[2..]))
    else None
  }

  lemma Pad2Value(n: int)
    requires 0 <= n <= 99
    ensures AllDigits(Pad2(n)) && TwoDigitValue(Pad2(n)) == n
  {
  }

  /** Two digits spell the number they denote. */
  lemma TwoDigitsArePad2(t: string)
    requires |t| == 2 && AllDigits(t)
    ensures t == Pad2(TwoDigitValue(t))
  {
    var n := TwoDigitValue(t);
    assert n / 10 == DigitValue(t[0]) && n % 10 == DigitValue(t[1]);
  }

  lemma DigitCharValue(n: int)
    requires 0 <= n <= 9
    ensures IsDigit(DigitChar(n)) && DigitValue(DigitChar(n)) == n
    ensures '1' <= DigitChar(n) <= '9' <==> n >= 1
  {
  }

  lemma {:induction false} DayFieldIff(t: string, n: int)
    ensures DayField(t) == Some(n) <==> 1 <= n <= 31 && t in DaySpellings(n)
  {
    if DayField(t) == Some(n) {
      if |t| == 2 && AllDigits(t) {
        TwoDigitsArePad2(t);
        assert t in DaySpellings(n);
      } else if |t| == 1 {
        assert DigitChar(n) == t[0];
        assert t == [DigitChar(n)];
        assert t in DaySpellings(n);
      } else {
        assert DigitChar(n) == t[1];
        assert t == [' ', DigitChar(n)];
        assert t in DaySpellings(n);
      }
    }
    if 1 <= n <= 31 && t in DaySpellings(n) {
      if t == Pad2(n) {
        Pad2Value(n);
      } else {
        DigitCharValue(n);
        if t == [DigitChar(n)] {
          assert |t| == 1 && '1' <= t[0] <= '9';
          assert DayField(t) == Some(n);
        } else {
          assert t == [' ', DigitChar(n)];
          assert !(|t| == 2 && AllDigits(t));
        }
      }
    }
  }

  lemma {:induction false} MonthFieldIff(t: string, n: int)
    ensures MonthField(t) == Some(n) <==> 1 <= n <= 12 && t in MonthSpellings(n)
  {
    if MonthField(t) == Some(n) {
      if |t| == 2 {
        TwoDigitsArePad2(t);
        assert t in MonthSpellings(n);
      } else {
        assert DigitChar(n) == t[0];
        assert t == [DigitChar(n)];
        assert t in MonthSpellings(n);
      }
    }
    if 1 <= n <= 12 && t in MonthSpellings(n) {
      if t == Pad2(n) {
        Pad2Value(n);
      } else {
        DigitCharValue(n);
        assert t == [DigitChar(n)];
      }
    }
  }

  lemma {:induction false} YearFieldIff(t: string, n: int)
    ensures YearField(t) == Some(n) <==> 0 <= n <= 9999 && t == Pad4(n)
  {
    if YearField(t) == Some(n) {
      var hi, lo := t[..2], t[2..];
      TwoDigitsArePad2(hi);
      TwoDigitsArePad2(lo);
      assert n / 100 == TwoDigitValue(hi) && n % 100 == TwoDigitValue(lo);
      assert t == hi + lo;
    }
    if 0 <= n <= 9999 && t == Pad4(n) {
      Pad2Value(n / 100);
      Pad2Value(n % 100);
      assert t[..2] == Pad2(n / 100) && t[2..] == Pad2(n % 100);
    }
  }

  /** The first index of `c` in `s` (str.find), or None. */
  function FindChar(s: string, c: char): (r: Option<nat>)
    ensures r.Some? ==> r.value < |s| && s[r.value] == c && forall k | 0 <= k < r.value :: s[k] != c
    ensures r.None? ==> forall k | 0 <= k < |s| :: s[k] != c
  {
    if s == [] then None
    else if s[0] == c then Some(0)
    else match FindChar(s[1..], c)
      case None => None
      case Some(i) => Some(i + 1)
  }

  /** Cuts `s` at its first two occurrences of `sep`. */
  function Split3(s: string, sep: char): Option<(string, string, string)> {
    match FindChar(s, sep)
    case None => None
    case Some(i) =>
      var rest := s[i + 1..];
      match FindChar(rest, sep)
      case None => None
      case Some(j) => Some((s[..i], rest[..j], rest[j + 1..]))
  }

  /** Split3 yields (a, b, c) exactly when `s` is a, sep, b, sep, c and neither
      `a` nor `b` contains the separator. */
  lemma Split3Iff(s: string, sep: char, a: string, b: string, c: string)
    ensures Split3(s, sep) == Some((a, b, c)) <==> sep !in a && sep !in b && s == a + [sep] + b + [sep] + c
  {
    if Split3(s, sep) == Some((a, b, c)) {
      Split3Pieces(s, sep);
    }
    if sep !in a && sep !in b && s == a + [sep] + b + [sep] + c {
      Split3Joined(sep, a, b, c);
    }
  }

  lemma Split3Pieces(s: string, sep: char)
    requires Split3(s, sep).Some?
    ensures var (a, b, c) := Split3(s, sep).value;
            sep !in a && sep !in b && s == a + [sep] + b + [sep] + c
  {
    var i := FindChar(s, sep).value;
    var rest := s[i + 1..];
    var j := FindChar(rest, sep).value;
    var a, b, c := s[..i], rest[..j], rest[j + 1..];
    assert Split3(s, sep) == Some((a, b, c));
    CutAtFirst(s, sep, i);
    CutAtFirst(rest, sep, j);
    assert s == a + [sep] + (b + [sep] + c);
    assert a + [sep] + (b + [sep] + c) == a + [sep] + b + [sep] + c;
  }

  /** Cutting at the first occurrence of `sep` leaves no `sep` in front of it. */
  lemma CutAtFirst(s: string, sep: char, i: nat)
    requires FindChar(s, sep) == Some(i)
    ensures sep !in s[..i] && s == s[..i] + [sep] + s[i + 1..]
  {
    forall k | 0 <= k < i ensures s[..i][k] != sep {
      assert s[..i][k] == s[k];
    }
  }

  lemma FindCharAfter(a: string, sep: char, t: string)
    requires sep !in a
    ensures FindChar(a + [sep] + t, sep) == Some(|a|)
  {
    var s := a + [sep] + t;
    assert s[|a|] == sep;
    assert forall k | 0 <= k < |a| :: s[k] == a[k];
  }

  lemma Split3Joined(sep: char, a: string, b: string, c: string)
    requires sep !in a && sep !in b
    ensures Split3(a + [sep] + b + [sep] + c, sep) == Some((a, b, c))
  {
    var s := a + [sep] + b + [sep] + c;
    FindCharAfter(a, sep, b + [sep] + c);
    assert s == a + [sep] + (b + [sep] + c);
    var rest := s[|a| + 1..];
    assert rest == b + [sep] + c;
    FindCharAfter(b, sep, c);
    assert s[..|a|] == a && rest[..|b|] == b && rest[|b| + 1..] == c;
  }

  function MakeDate(d: Option<int>, m: Option<int>, y: Option<int>): (r: Option<Date>)
    ensures r.Some? ==> ValidDate(r.value)
  {
    if d.Some? && m.Some? && y.Some? && ValidDate(Date(d.value, m.value, y.value))
    then Some(Date(d.value, m.value, y.value))
    else None
  }

  /** datetime.strptime(s, '%d.%m.%Y'), with None for the ValueError. */
  function ParseDMY(s: string): (r: Option<Date>)
    ensures r.Some? ==> ValidDate(r.value)
  {
    match Split3(s, '.')
    case None => None
    case Some((dd, mm, yyyy)) => MakeDate(DayField(dd), MonthField(mm), YearField(yyyy))
  }

  /** datetime.strptime(s, '%Y-%m-%d'), with None for the ValueError. */
  function ParseYMD(s: string): (r: Option<Date>)
    ensures r.Some? ==> ValidDate(r.value)
  {
    match Split3(s, '-')
    case None => None
    case Some((yyyy, mm, dd)) => MakeDate(DayField(dd), MonthField(mm), YearField(yyyy))
  }

  /** date.strftime('%d.%m.%Y') */
  function FormatDMY(d: Date): string
    requires ValidDate(d)
  {
    Pad2(d.day) + "." + Pad2(d.month) + "." + Pad4(d.year)
  }

  /** date.strftime('%Y-%m-%d') */
  function FormatYMD(d: Date): string
    requires ValidDate(d)
  {
    Pad4(d.year) + "-" + Pad2(d.month) + "-" + Pad2(d.day)
  }

  lemma SpellingsHaveNoSeparator(d: Date, ds: string, ms: string, sep: char)
    requires ValidDate(d) && ds in DaySpellings(d.day) && ms in MonthSpellings(d.month)
    requires sep == '.' || sep == '-'
    ensures sep !in ds && sep !in ms && sep !in Pad4(d.year)
  {
  }

  /** strptime(s, '%d.%m.%Y') yields `d` exactly when `s` spells a valid `d` as
      day, '.', month, '.', four-digit year, with the one-digit and space-padded
      day and the one-digit month that strptime also accepts. */
  lemma ParseDMYIff(s: string, d: Date)
    ensures ParseDMY(s) == Some(d) <==>
              ValidDate(d) && exists ds, ms | ds in DaySpellings(d.day) && ms in MonthSpellings(d.month) ::
                                s == ds + "." + ms + "." + Pad4(d.year)
  {
    if ParseDMY(s) == Some(d) {
      var (dd, mm, yyyy) := Split3(s, '.').value;
      Split3Iff(s, '.', dd, mm, yyyy);
      DayFieldIff(dd, d.day);
      MonthFieldIff(mm, d.month);
      YearFieldIff(yyyy, d.year);
      assert s == dd + "." + mm + "." + Pad4(d.year);
    }
    if ValidDate(d) && exists ds, ms | ds in DaySpellings(d.day) && ms in MonthSpellings(d.month) ::
                         s == ds + "." + ms + "." + Pad4(d.year) {
      var ds, ms :| ds in DaySpellings(d.day) && ms in MonthSpellings(d.month) &&
                     s == ds + "." + ms + "." + Pad4(d.year);
      SpellingsHaveNoSeparator(d, ds, ms, '.');
      Split3Iff(s, '.', ds, ms, Pad4(d.year));
      DayFieldIff(ds, d.day);
      MonthFieldIff(ms, d.month);
      YearFieldIff(Pad4(d.year), d.year);
    }
  }

  /** strptime(s, '%Y-%m-%d') yields `d` exactly when `s` spells a valid `d` as
      four-digit year, '-', month, '-', day, with the same leniency as above. */
  lemma ParseYMDIff(s: string, d: Date)
    ensures ParseYMD(s) == Some(d) <==>
              ValidDate(d) && exists ds, ms | ds in DaySpellings(d.day) && ms in MonthSpellings(d.month) ::
                                s == Pad4(d.year) + "-" + ms + "-" + ds
  {
    if ParseYMD(s) == Some(d) {
      var (yyyy, mm, dd) := Split3(s, '-').value;
      Split3Iff(s, '-', yyyy, mm, dd);
      DayFieldIff(dd, d.day);
      MonthFieldIff(mm, d.month);
      YearFieldIff(yyyy, d.year);
      assert s == Pad4(d.year) + "-" + mm + "-" + dd;
    }
    if ValidDate(d) && exists ds, ms | ds in DaySpellings(d.day) && ms in MonthSpellings(d.month) ::
                         s == Pad4(d.year) + "-" + ms + "-" + ds {
      var ds, ms :| ds in DaySpellings(d.day) && ms in MonthSpellings(d.month) &&
                     s == Pad4(d.year) + "-" + ms + "-" + ds;
      SpellingsHaveNoSeparator(d, ds, ms, '-');
      Split3Iff(s, '-', Pad4(d.year), ms, ds);
      DayFieldIff(ds, d.day);
      MonthFieldIff(ms, d.month);
      YearFieldIff(Pad4(d.year), d.year);
    }
  }

  /** Parsing what strftime('%d.%m.%Y') printed gives the date back. */
  lemma ParseFormatDMY(d: Date)
    requires ValidDate(d)
    ensures ParseDMY(FormatDMY(d)) == Some(d)
  {
    assert Pad2(d.day) in DaySpellings(d.day) && Pad2(d.month) in MonthSpellings(d.month);
    ParseDMYIff(FormatDMY(d), d);
  }

  /** Parsing what strftime('%Y-%m-%d') printed gives the date back. */
  lemma ParseFormatYMD(d: Date)
    requires ValidDate(d)
    ensures ParseYMD(FormatYMD(d)) == Some(d)
  {
    assert Pad2(d.day) in DaySpellings(d.day) && Pad2(d.month) in MonthSpellings(d.month);
    ParseYMDIff(FormatYMD(d), d);
  }

  /** The shape DD.MM.YYYY with every field written out in digits (the GLOB
      '[0-9][0-9].[0-9][0-9].[0-9][0-9][0-9][0-9]'). */
  predicate TwoDigitFieldsDMY(s: string) {
    |s| == 10 && s[2] == '.' && s[5] == '.' && AllDigits(s[..2]) && AllDigits(s[3..5]) && AllDigits(s[6..])
  }

  /** Every formatted date has the two-digit shape. */
  lemma FormatHasTwoDigitFields(d: Date)
    requires ValidDate(d)
    ensures TwoDigitFieldsDMY(FormatDMY(d))
  {
    var s := FormatDMY(d);
    assert s[..2] == Pad2(d.day) && s[3..5] == Pad2(d.month) && s[6..] == Pad4(d.year);
  }

  /** A two-digit-shaped string that parses is exactly the formatted form of its date. */
  lemma TwoDigitFieldsCanonical(s: string, d: Date)
    requires TwoDigitFieldsDMY(s) && ParseDMY(s) == Some(d)
    ensures ValidDate(d) && s == FormatDMY(d)
  {
    ParseDMYIff(s, d);
    var ds, ms :| ds in DaySpellings(d.day) && ms in MonthSpellings(d.month) &&
                   s == ds + "." + ms + "." + Pad4(d.year);
    DaySpellingShape(ds, d.day);
    MonthSpellingShape(ms, d.month);
    assert |s| == |ds| + |ms| + 6;
    assert s[0] == ds[0];
    assert IsDigit(s[..2][0]);
  }

  lemma DaySpellingShape(ds: string, n: int)
    requires 1 <= n <= 31 && ds in DaySpellings(n)
    ensures 1 <= |ds| <= 2
    ensures |ds| == 2 && IsDigit(ds[0]) ==> ds == Pad2(n)
  {
  }

  lemma MonthSpellingShape(ms: string, n: int)
    requires 1 <= n <= 12 && ms in MonthSpellings(n)
    ensures 1 <= |ms| <= 2
    ensures |ms| == 2 ==> ms == Pad2(n)
  {
  }

  // ---- Moments ----

  const MicrosPerSecond := 1_000_000
  const SecondsPerDay := 86_400
  const MicrosPerDay := 86_400_000_000

  type DayMicros = x: int | 0 <= x < MicrosPerDay

  /** A `datetime`: a calendar date and the microseconds elapsed since its midnight. */
  datatype Moment = Moment(date: CalendarDate, micros: DayMicros)

  /** What strptime returns for a date string: the date at 00:00:00. */
  function Midnight(d: CalendarDate): Moment {
    Moment(d, 0)
  }

  /** Microseconds since 01.01.0001 00:00:00; datetimes compare by this number. */
  function Timestamp(m: Moment): int {
    Ordinal(m.date) * MicrosPerDay + m.micros
  }

  /** Midnight of `d` is strictly before `now` exactly when `d` is an earlier day,
      or is today and the clock has passed 00:00:00; it is at or before `now`
      exactly when `d` is not a later day. */
  lemma MidnightComparedToNow(d: CalendarDate, now: Moment)
    ensures Timestamp(Midnight(d)) < Timestamp(now) <==>
              Precedes(d, now.date) || (d == now.date && now.micros > 0)
    ensures Timestamp(Midnight(d)) <= Timestamp(now) <==> !Precedes(now.date, d)
  {
    OrdinalOrderIff(d, now.date);
    OrdinalOrderIff(now.date, d);
  }
}

/**
 UTC calendar days: the day numbers of ECMA-262 (section 21.4.1) and the ten
 characters `toISOString().slice(0, 10)` prints for them (RFC 3339, section 5.6).
 */
module Calendar {
  import opened Texts

  const MS_PER_DAY := 86_400_000
  const SECONDS_PER_DAY := 86_400

  /** Dafny's `/` and `%` floor for positive divisors, as the standard's do. */
  function Quotient(x: int, d: int): int
    requires d > 0
  {
    x / d
  }

  predicate Divides(d: int, x: int)
    requires d > 0
  {
    x % d == 0
  }

  /** DayFromYear of section 21.4.1.3. */
  function DayFromYear(y: int): int {
    365 * (y - 1970) + Quotient(y - 1969, 4) - Quotient(y - 1901, 100) + Quotient(y - 1601, 400)
  }

  predicate IsLeap(y: int) {
    Divides(4, y) && (!Divides(100, y) || Divides(400, y))
  }

  lemma YearLength(y: int)
    ensures DayFromYear(y + 1) - DayFromYear(y) == if IsLeap(y) then 366 else 365
  {
    hide Quotient, Divides;
    QuotientStep(y - 1969, 4);
    QuotientStep(y - 1901, 100);
    QuotientStep(y - 1601, 400);
    EveryFour(y);
    EveryHundred(y);
    EveryFourHundred(y);
    LeapCycles(y);
  }

  lemma EveryFour(y: int)
    ensures Divides(4, y - 1968) <==> Divides(4, y)
  {
  }

  lemma EveryHundred(y: int)
    ensures Divides(100, y - 1900) <==> Divides(100, y)
  {
  }

  lemma EveryFourHundred(y: int)
    ensures Divides(400, y - 1600) <==> Divides(400, y)
  {
  }

  lemma LeapCycles(y: int)
    ensures Divides(100, y) ==> Divides(4, y)
    ensures Divides(400, y) ==> Divides(100, y)
  {
    if Divides(100, y) { assert y == 100 * Quotient(y, 100); }
    if Divides(400, y) { assert y == 400 * Quotient(y, 400); }
  }

  lemma QuotientStep(x: int, d: int)
    requires d == 4 || d == 100 || d == 400
    ensures Quotient(x + 1, d) - Quotient(x, d) == if Divides(d, x + 1) then 1 else 0
  {
  }

  lemma YearsNearby(y: int)
    ensures DayFromYear(y - 1) < DayFromYear(y) < DayFromYear(y + 1) < DayFromYear(y + 2)
  {
    YearLength(y - 1);
    YearLength(y);
    YearLength(y + 1);
    hide DayFromYear, IsLeap;
  }

  /** YearFromTime: the year whose days contain `n`, sought from `y`. */
  function YearFrom(n: int, y: int): (r: int)
    ensures DayFromYear(r) <= n < DayFromYear(r + 1)
    decreases if n < DayFromYear(y) then DayFromYear(y) - n
                 else if DayFromYear(y + 1) <= n then n - DayFromYear(y + 1) + 1 else 0
  {
    YearsNearby(y);
    if n < DayFromYear(y) then YearFrom(n, y - 1)
    else if DayFromYear(y + 1) <= n then YearFrom(n, y + 1)
    else y
  }

  function YearOf(n: int): (y: int)
    ensures DayFromYear(y) <= n < DayFromYear(y + 1)
  {
    YearFrom(n, 1970)
  }

  lemma {:induction false} DayFromYearGrows(y: int, z: int)
    requires y < z
    ensures DayFromYear(y) < DayFromYear(z)
    decreases z - y
  {
    YearLength(z - 1);
    if y < z - 1 { DayFromYearGrows(y, z - 1); }
  }

  lemma YearsGrow(a: int, b: int)
    requires a <= b
    ensures YearOf(a) <= YearOf(b)
  {
    if YearOf(b) < YearOf(a) {
      if YearOf(b) + 1 < YearOf(a) { DayFromYearGrows(YearOf(b) + 1, YearOf(a)); }
    }
  }

  /** Days of the year before month `m`, counted from 0. */
  function MonthStart(leap: bool, m: nat): nat
    requires m <= 12
  {
    var extra := if leap then 1 else 0;
    if m == 0 then 0
    else if m == 1 then 31
    else if m == 2 then 59 + extra
    else if m == 3 then 90 + extra
    else if m == 4 then 120 + extra
    else if m == 5 then 151 + extra
    else if m == 6 then 181 + extra
    else if m == 7 then 212 + extra
    else if m == 8 then 243 + extra
    else if m == 9 then 273 + extra
    else if m == 10 then 304 + extra
    else if m == 11 then 334 + extra
    else 365 + extra
  }

  function MonthFrom(leap: bool, d: nat, m: nat): (r: nat)
    requires m <= 11 && MonthStart(leap, m) <= d < MonthStart(leap, 12)
    ensures r <= 11 && MonthStart(leap, r) <= d < MonthStart(leap, r + 1)
    decreases 12 - m
  {
    if d < MonthStart(leap, m + 1) then m else MonthFrom(leap, d, m + 1)
  }

  datatype Date = Date(year: int, month: nat, day: nat)

  function DateOf(n: int): (r: Date)
    ensures r.year == YearOf(n) && 1 <= r.month <= 12 && 1 <= r.day <= 31
  {
    var y := YearOf(n);
    var d := n - DayFromYear(y);
    YearLength(y);
    var m := MonthFrom(IsLeap(y), d, 0);
    Date(y, m + 1, d - MonthStart(IsLeap(y), m) + 1)
  }

  predicate Earlier(a: Date, b: Date) {
    a.year < b.year || (a.year == b.year && (a.month < b.month || (a.month == b.month && a.day < b.day)))
  }

  lemma MonthStartsGrow(leap: bool, j: nat, k: nat)
    requires j <= k <= 12
    ensures MonthStart(leap, j) <= MonthStart(leap, k)
  {
  }

  lemma DatesGrow(a: int, b: int)
    requires a < b
    ensures Earlier(DateOf(a), DateOf(b))
  {
    YearsGrow(a, b);
    if YearOf(a) == YearOf(b) { MonthsGrow(a, b); }
  }

  lemma MonthsGrow(a: int, b: int)
    requires a < b && YearOf(a) == YearOf(b)
    ensures Earlier(DateOf(a), DateOf(b))
  {
    hide DayFromYear, MonthStart, MonthFrom, IsLeap, YearOf;
    var leap, start := IsLeap(YearOf(a)), DayFromYear(YearOf(a));
    YearLength(YearOf(a));
    WholeYear(leap);
    var m, k := MonthFrom(leap, a - start, 0), MonthFrom(leap, b - start, 0);
    if k < m { MonthStartsGrow(leap, k + 1, m); }
  }

  lemma WholeYear(leap: bool)
    ensures MonthStart(leap, 0) == 0 && MonthStart(leap, 12) == if leap then 366 else 365
  {
  }

  /** Month lengths as the calendar is usually recited. */
  function MonthLength(leap: bool, month: nat): nat {
    if month == 2 then (if leap then 29 else 28)
    else if month == 4 || month == 6 || month == 9 || month == 11 then 30
    else 31
  }

  function Tomorrow(d: Date): Date {
    if d.day < MonthLength(IsLeap(d.year), d.month) then Date(d.year, d.month, d.day + 1)
    else if d.month < 12 then Date(d.year, d.month + 1, 1)
    else Date(d.year + 1, 1, 1)
  }

  lemma MonthStartStep(leap: bool, m: nat)
    requires m <= 11
    ensures MonthStart(leap, m + 1) == MonthStart(leap, m) + MonthLength(leap, m + 1)
  {
  }

  lemma YearUnique(n: int, y: int)
    requires DayFromYear(y) <= n < DayFromYear(y + 1)
    ensures YearOf(n) == y
  {
    if YearOf(n) < y && YearOf(n) + 1 < y { DayFromYearGrows(YearOf(n) + 1, y); }
    if y < YearOf(n) && y + 1 < YearOf(n) { DayFromYearGrows(y + 1, YearOf(n)); }
  }

  lemma MonthUnique(leap: bool, d: nat, m: nat)
    requires m <= 11 && MonthStart(leap, m) <= d < MonthStart(leap, m + 1)
    ensures d < MonthStart(leap, 12) && MonthFrom(leap, d, 0) == m
  {
    hide MonthStart;
    WholeYear(leap);
    MonthStartsGrow(leap, m + 1, 12);
    var r := MonthFrom(leap, d, 0);
    if r < m { MonthStartsGrow(leap, r + 1, m); }
    if m < r { MonthStartsGrow(leap, m + 1, r); }
  }

  lemma DateFromParts(n: int, y: int, m: nat)
    requires DayFromYear(y) <= n < DayFromYear(y + 1) && m <= 11
    requires MonthStart(IsLeap(y), m) <= n - DayFromYear(y) < MonthStart(IsLeap(y), m + 1)
    ensures DateOf(n) == Date(y, m + 1, n - DayFromYear(y) - MonthStart(IsLeap(y), m) + 1)
  {
    hide DayFromYear, IsLeap, MonthStart, MonthFrom, YearOf;
    YearUnique(n, y);
    MonthUnique(IsLeap(y), n - DayFromYear(y), m);
  }

  lemma DateParts(n: int) returns (y: int, m: nat)
    ensures DayFromYear(y) <= n < DayFromYear(y + 1) && m <= 11
    ensures MonthStart(IsLeap(y), m) <= n - DayFromYear(y) < MonthStart(IsLeap(y), m + 1)
    ensures DateOf(n) == Date(y, m + 1, n - DayFromYear(y) - MonthStart(IsLeap(y), m) + 1)
  {
    hide DayFromYear, IsLeap, MonthStart, MonthFrom, YearOf;
    y := YearOf(n);
    YearLength(y);
    WholeYear(IsLeap(y));
    m := MonthFrom(IsLeap(y), n - DayFromYear(y), 0);
  }

  /** Day numbers follow the Gregorian calendar day by day, from 1 January 1970. */
  lemma DaysFollowTheCalendar(n: int)
    ensures DateOf(0) == Date(1970, 1, 1)
    ensures DateOf(n + 1) == Tomorrow(DateOf(n))
  {
    hide DayFromYear, IsLeap, MonthStart, MonthFrom, YearOf, DateOf;
    EpochDate();
    var y, m := DateParts(n);
    var leap, d := IsLeap(y), n - DayFromYear(y);
    YearLength(y);
    WholeYear(leap);
    MonthStartStep(leap, m);
    if n + 1 == DayFromYear(y + 1) {
      NextYear(y);
      LastMonth(leap, d, m);
    } else if d + 1 < MonthStart(leap, m + 1) {
      DateFromParts(n + 1, y, m);
    } else {
      MonthStartStep(leap, m + 1);
      DateFromParts(n + 1, y, m + 1);
    }
  }

  lemma LastMonth(leap: bool, d: nat, m: nat)
    requires m <= 11 && MonthStart(leap, m) <= d < MonthStart(leap, m + 1)
    requires d + 1 == MonthStart(leap, 12)
    ensures m == 11
  {
  }

  lemma NextYear(y: int)
    ensures DateOf(DayFromYear(y + 1)) == Date(y + 1, 1, 1)
  {
    hide IsLeap, YearOf, DayFromYear, MonthStart, MonthFrom;
    YearLength(y + 1);
    YearUnique(DayFromYear(y + 1), y + 1);
    FirstMonth(IsLeap(y + 1));
  }

  lemma FirstMonth(leap: bool)
    ensures MonthFrom(leap, 0, 0) == 0 && MonthStart(leap, 0) == 0
  {
  }

  lemma EpochDate()
    ensures DateOf(0) == Date(1970, 1, 1)
  {
    YearUnique(0, 1970);
    FirstMonth(IsLeap(1970));
  }

  // ---- Printed days ---------------------------------------------------------

  function Digit(d: nat): Unit
    requires d < 10
  {
    0x30 + d
  }

  function TwoDigits(x: nat): (t: Text)
    requires x < 100
    ensures |t| == 2
  {
    [Digit(x / 10), Digit(x % 10)]
  }

  function FourDigits(x: nat): (t: Text)
    requires x < 10000
    ensures |t| == 4
  {
    TwoDigits(x / 100) + TwoDigits(x % 100)
  }

  /** `toISOString` prints the plain four-digit year for these days. */
  predicate FourDigitYear(n: int) {
    0 <= YearOf(n) <= 9999
  }

  function IsoDay(n: int): (t: Text)
    requires FourDigitYear(n)
    ensures |t| == 10
  {
    var d := DateOf(n);
    FourDigits(d.year) + ([DASH] + (TwoDigits(d.month) + ([DASH] + TwoDigits(d.day))))
  }

  /** The instants a `Date` can hold (section 21.4.1.1); `toISOString` throws on any other. */
  predicate IsTime(ms: int) {
    -8_640_000_000_000_000 <= ms <= 8_640_000_000_000_000
  }

  /** A hundred million days on either side of the epoch. */
  lemma IsTimeIff(ms: int)
    ensures IsTime(ms) <==> -100_000_000 * MS_PER_DAY <= ms <= 100_000_000 * MS_PER_DAY
  {
  }

  function SixDigits(x: nat): (t: Text)
    ensures |t| == 6
  {
    FourDigits(x / 100 % 10000) + TwoDigits(x % 100)
  }

  /**
   `toISOString().slice(0, 10)`: the ISO day, or, in a year of other than four digits, the
   signed six-digit year and the month.
   */
  function DayText(n: int): (t: Text)
    ensures |t| == 10
    ensures FourDigitYear(n) ==> t == IsoDay(n)
  {
    if FourDigitYear(n) then IsoDay(n)
    else
      var d := DateOf(n);
      [if d.year < 0 then DASH else PLUS] + SixDigits(if d.year < 0 then -d.year else d.year) +
      [DASH] + TwoDigits(d.month)
  }

  lemma {:induction false} LessPrefix(a: Text, b: Text, s: Text, t: Text)
    requires |a| == |b|
    ensures Less(a, b) ==> Less(a + s, b + t)
    ensures a == b ==> (Less(a + s, b + t) <==> Less(s, t))
    decreases |a|
  {
    if a == [] {
      assert a + s == s && b + t == t;
    } else {
      assert (a + s)[1..] == a[1..] + s && (b + t)[1..] == b[1..] + t;
      LessPrefix(a[1..], b[1..], s, t);
    }
  }

  lemma TwoDigitsGrow(x: nat, y: nat)
    requires x < y < 100
    ensures Less(TwoDigits(x), TwoDigits(y))
  {
    if x / 10 == y / 10 {
      assert TwoDigits(x)[1..] == [Digit(x % 10)] && TwoDigits(y)[1..] == [Digit(y % 10)];
      assert Less([Digit(x % 10)], [Digit(y % 10)]);
    }
  }

  lemma FourDigitsGrow(x: nat, y: nat)
    requires x < y < 10000
    ensures Less(FourDigits(x), FourDigits(y))
  {
    if x / 100 == y / 100 {
      TwoDigitsGrow(x % 100, y % 100);
    } else {
      TwoDigitsGrow(x / 100, y / 100);
    }
    LessPrefix(TwoDigits(x / 100), TwoDigits(y / 100), TwoDigits(x % 100), TwoDigits(y % 100));
  }

  lemma IsoDaysGrow(a: int, b: int)
    requires FourDigitYear(a) && FourDigitYear(b) && a < b
    ensures Less(IsoDay(a), IsoDay(b))
  {
    var d, e := DateOf(a), DateOf(b);
    DatesGrow(a, b);
    var dDay, eDay := [DASH] + TwoDigits(d.day), [DASH] + TwoDigits(e.day);
    var dMonth, eMonth := [DASH] + (TwoDigits(d.month) + dDay), [DASH] + (TwoDigits(e.month) + eDay);
    LessPrefix(FourDigits(d.year), FourDigits(e.year), dMonth, eMonth);
    LessPrefix([DASH], [DASH], TwoDigits(d.month) + dDay, TwoDigits(e.month) + eDay);
    LessPrefix(TwoDigits(d.month), TwoDigits(e.month), dDay, eDay);
    LessPrefix([DASH], [DASH], TwoDigits(d.day), TwoDigits(e.day));
    if d.year < e.year { FourDigitsGrow(d.year, e.year); }
    if d.month < e.month { TwoDigitsGrow(d.month, e.month); }
    if d.day < e.day { TwoDigitsGrow(d.day, e.day); }
  }

  /** ISO day strings compare exactly as the days they name. */
  lemma IsoOrderIsDayOrder(a: int, b: int)
    requires FourDigitYear(a) && FourDigitYear(b)
    ensures Less(IsoDay(a), IsoDay(b)) <==> a < b
    ensures IsoDay(a) == IsoDay(b) <==> a == b
  {
    LessTotal(IsoDay(a), IsoDay(b));
    if a < b { IsoDaysGrow(a, b); }
    if b < a { IsoDaysGrow(b, a); }
  }

  /** The UTC day an instant falls on. */
  function DayOfInstant(ms: int): int {
    ms / MS_PER_DAY
  }

  /** `new Date(s * 1000).toISOString()` with the milliseconds removed. */
  function IsoSecond(s: int): (t: Text)
    requires FourDigitYear(s / SECONDS_PER_DAY)
    ensures |t| == 20 && t[..10] == IsoDay(s / SECONDS_PER_DAY)
  {
    var r := s % SECONDS_PER_DAY;
    IsoDay(s / SECONDS_PER_DAY) + ([UPPER_T] + TwoDigits(r / 3600) + [COLON] + TwoDigits(r / 60 % 60) +
    [COLON] + TwoDigits(r % 60) + [UPPER_Z])
  }

  const UPPER_T: Unit := 0x54
  const UPPER_Z: Unit := 0x5A

  lemma SecondsKeepDay(ms: int)
    ensures (ms / 1000) / SECONDS_PER_DAY == DayOfInstant(ms)
  {
  }
}

/**
 What the printed days and timestamps say, read back digit by digit: the characters
 `toISOString` prints (ECMA-262, section 21.4.1.32) against the calendar's own numbers.
 */
module IsoTexts {
  import opened Texts
  import opened Calendar

  predicate AllDecimal(t: Text) {
    forall k :: 0 <= k < |t| ==> '0' as int <= t[k] <= '9' as int
  }

  /** The number some decimal digits write. */
  function Decimal(t: Text): int {
    if t == [] then 0 else Decimal(t[..|t| - 1]) * 10 + (t[|t| - 1] - '0' as int)
  }

  lemma DecimalTwo(t: Text)
    requires |t| == 2
    ensures Decimal(t) == (t[0] - '0' as int) * 10 + (t[1] - '0' as int)
  {
    assert t[..1][..0] == [];
    assert Decimal(t[..1]) == t[0] - '0' as int;
  }

  lemma DecimalFour(t: Text)
    requires |t| == 4
    ensures Decimal(t) == Decimal(t[..2]) * 100 + Decimal(t[2..])
  {
    DecimalTwo(t[2..]);
    assert t[..3][..2] == t[..2];
    assert Decimal(t[..3]) == Decimal(t[..2]) * 10 + (t[2] - '0' as int);
  }

  lemma TwoDigitsRead(x: nat)
    requires x < 100
    ensures AllDecimal(TwoDigits(x)) && Decimal(TwoDigits(x)) == x
  {
    DecimalTwo(TwoDigits(x));
  }

  lemma FourDigitsRead(x: nat)
    requires x < 10000
    ensures AllDecimal(FourDigits(x)) && Decimal(FourDigits(x)) == x
  {
    hide TwoDigits, Decimal;
    TwoDigitsRead(x / 100);
    TwoDigitsRead(x % 100);
    var t := FourDigits(x);
    DecimalFour(t);
    assert t[..2] == TwoDigits(x / 100) && t[2..] == TwoDigits(x % 100);
  }

  /** `yyyy-mm-dd`, naming this date. */
  ghost predicate NamesDate(t: Text, d: Date) {
    && |t| == 10 && t[4] == '-' as int && t[7] == '-' as int
    && AllDecimal(t[..4]) && AllDecimal(t[5..7]) && AllDecimal(t[8..])
    && Decimal(t[..4]) == d.year && Decimal(t[5..7]) == d.month && Decimal(t[8..]) == d.day
  }

  lemma IsoDayReads(n: int)
    requires FourDigitYear(n)
    ensures NamesDate(IsoDay(n), DateOf(n))
  {
    hide TwoDigits, FourDigits, Decimal, AllDecimal;
    var t, d := IsoDay(n), DateOf(n);
    FourDigitsRead(d.year);
    TwoDigitsRead(d.month);
    TwoDigitsRead(d.day);
    assert t[..4] == FourDigits(d.year) && t[5..7] == TwoDigits(d.month) && t[8..] == TwoDigits(d.day);
  }

  /** `yyyy-mm-ddThh:mm:ssZ`, naming the second `s` since the epoch. */
  ghost predicate NamesSecond(t: Text, s: int) {
    && |t| == 20 && NamesDate(t[..10], DateOf(s / 86_400))
    && t[10] == 'T' as int && t[13] == ':' as int && t[16] == ':' as int && t[19] == 'Z' as int
    && AllDecimal(t[11..13]) && AllDecimal(t[14..16]) && AllDecimal(t[17..19])
    && 0 <= Decimal(t[11..13]) < 24 && 0 <= Decimal(t[14..16]) < 60 && 0 <= Decimal(t[17..19]) < 60
    && Decimal(t[11..13]) * 3600 + Decimal(t[14..16]) * 60 + Decimal(t[17..19]) == s % 86_400
  }

  lemma ClockParts(r: int)
    requires 0 <= r < 86_400
    ensures 0 <= r / 3600 < 24 && 0 <= r / 60 % 60 < 60
    ensures r / 3600 * 3600 + r / 60 % 60 * 60 + r % 60 == r
  {
  }

  lemma IsoSecondReads(s: int)
    requires FourDigitYear(s / SECONDS_PER_DAY)
    ensures NamesSecond(IsoSecond(s), s)
  {
    hide TwoDigits, Decimal, AllDecimal, IsoDay, FourDigitYear, NamesDate;
    var t, r := IsoSecond(s), s % SECONDS_PER_DAY;
    IsoDayReads(s / SECONDS_PER_DAY);
    ClockParts(r);
    TwoDigitsRead(r / 3600);
    TwoDigitsRead(r / 60 % 60);
    TwoDigitsRead(r % 60);
    assert t[11..13] == TwoDigits(r / 3600) && t[14..16] == TwoDigits(r / 60 % 60) && t[17..19] == TwoDigits(r % 60);
  }

  /** Outside four-digit years the ten characters are a sign, six digits of the year, and the month. */
  lemma ExpandedDayReads(n: int)
    requires !FourDigitYear(n) && -1_000_000 < YearOf(n) < 1_000_000
    ensures var t, d := DayText(n), DateOf(n);
            && t[0] == (if d.year < 0 then '-' as int else '+' as int) && t[7] == '-' as int
            && AllDecimal(t[1..7]) && AllDecimal(t[8..])
            && Decimal(t[1..7]) == (if d.year < 0 then -d.year else d.year) && Decimal(t[8..]) == d.month
  {
    hide TwoDigits, FourDigits, Decimal, AllDecimal;
    var t, d := DayText(n), DateOf(n);
    var y := if d.year < 0 then -d.year else d.year;
    SixDigitsRead(y);
    TwoDigitsRead(d.month);
    assert t[1..7] == SixDigits(y) && t[8..] == TwoDigits(d.month);
  }

  lemma SixDigitsRead(x: nat)
    requires x < 1_000_000
    ensures AllDecimal(SixDigits(x)) && Decimal(SixDigits(x)) == x
  {
    hide TwoDigits, FourDigits;
    FourDigitsRead(x / 100);
    TwoDigitsRead(x % 100);
    var t := SixDigits(x);
    var front, last := FourDigits(x / 100), TwoDigits(x % 100);
    assert t == front + last && t[..5][..4] == front && t[4] == last[0] && t[5] == last[1];
    DecimalTwo(last);
    assert Decimal(t[..5]) == Decimal(front) * 10 + (last[0] - '0' as int);
    assert Decimal(t) == Decimal(t[..5]) * 10 + (last[1] - '0' as int);
  }
}

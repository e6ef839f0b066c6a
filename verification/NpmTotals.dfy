/**
 What the sums of apps/usage-worker/src/npm-history.ts add up to, day by day.
 */
module NpmTotals {
  import opened Texts
  import opened Calendar
  import opened NpmHistory

  /** The downloads of the days `start` to `end`. */
  function SumRange(start: int, end: int, downloads: int -> nat): nat
    decreases if start <= end then end - start + 1 else 0
  {
    if end < start then 0 else SumRange(start, end - 1, downloads) + downloads(end)
  }

  lemma SumOne(d: Daily)
    ensures SumDownloads([d]) == d.downloads
  {
  }

  /** A total is the sum of its days. */
  lemma {:induction false} TotalIsRange(start: int, end: int, downloads: int -> nat)
    requires Printable(start, end)
    ensures SumDownloads(Series(start, end, downloads)) == SumRange(start, end, downloads)
    decreases if start <= end then end - start + 1 else 0
  {
    hide IsoDay, FourDigitYear, Series, SumDownloads;
    SeriesStep(start, end, downloads);
    if start <= end {
      TotalIsRange(start, end - 1, downloads);
      SumAppend(Series(start, end - 1, downloads), [Daily(IsoDay(end), downloads(end))]);
      SumOne(Daily(IsoDay(end), downloads(end)));
    } else {
      NothingSummed();
    }
  }

  lemma NothingSummed()
    ensures SumDownloads([]) == 0
  {
  }

  /** `parseDay` reads each printed day back as its midnight. */
  ghost predicate ReadsDays(start: int, end: int, parseDay: Text -> Option<int>)
    requires Printable(start, end)
  {
    forall n :: start <= n <= end ==> parseDay(IsoDay(n)) == Some(n * MS_PER_DAY)
  }

  function Later(a: int, b: int): int {
    if a < b then b else a
  }

  function Sooner(a: int, b: int): int {
    if a < b then a else b
  }

  /** The trailing window of `days` up to day `last` holds exactly those calendar days of the series. */
  lemma {:induction false} TrailingIsRange(
    start: int, end: int, downloads: int -> nat, last: int, days: nat, parseDay: Text -> Option<int>)
    requires Printable(start, end) && ReadsDays(start, end, parseDay)
    ensures SumTrailing(Series(start, end, downloads), last * MS_PER_DAY, days, parseDay) ==
            SumRange(Later(start, last - days + 1), Sooner(end, last), downloads)
    decreases if start <= end then end - start + 1 else 0
  {
    hide IsoDay, FourDigitYear, Series, SumTrailing, Within;
    SeriesStep(start, end, downloads);
    if start <= end {
      var d := Daily(IsoDay(end), downloads(end));
      TrailingIsRange(start, end - 1, downloads, last, days, parseDay);
      TrailingAppend(Series(start, end - 1, downloads), d, last * MS_PER_DAY, days, parseDay);
      WithinIff(end, last, days);
      RangeGrows(start, end, downloads, last, days);
    } else {
      NothingTrailing(last * MS_PER_DAY, days, parseDay);
    }
  }

  lemma NothingTrailing(endMs: int, days: nat, parseDay: Text -> Option<int>)
    ensures SumTrailing([], endMs, days, parseDay) == 0
  {
  }

  lemma WithinIff(day: int, last: int, days: nat)
    ensures Within(Some(day * MS_PER_DAY), last * MS_PER_DAY, days) <==> last - days + 1 <= day <= last
  {
  }

  lemma RangeGrows(start: int, end: int, downloads: int -> nat, last: int, days: nat)
    requires start <= end
    ensures SumRange(Later(start, last - days + 1), Sooner(end, last), downloads) ==
            SumRange(Later(start, last - days + 1), Sooner(end - 1, last), downloads) +
            (if last - days + 1 <= end <= last then downloads(end) else 0)
  {
  }

  lemma {:induction false} TrailingAppend(
    series: seq<Daily>, d: Daily, endMs: int, days: nat, parseDay: Text -> Option<int>)
    ensures SumTrailing(series + [d], endMs, days, parseDay) ==
            SumTrailing(series, endMs, days, parseDay) +
            (if Within(parseDay(d.day), endMs, days) then d.downloads else 0)
    decreases |series|
  {
    hide SumTrailing, Within;
    if series == [] {
      assert [] + [d] == [d] && [d][1..] == [];
      SumTrailingCons([d], endMs, days, parseDay);
      NothingTrailing(endMs, days, parseDay);
    } else {
      assert (series + [d])[1..] == series[1..] + [d];
      TrailingAppend(series[1..], d, endMs, days, parseDay);
      SumTrailingCons(series + [d], endMs, days, parseDay);
      SumTrailingCons(series, endMs, days, parseDay);
    }
  }
}

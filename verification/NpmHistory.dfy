/**
 The download backfill of apps/usage-worker/src/npm-history.ts: split an interval of
 days into requests, merge the answers, sum the series.

 `parseDay` always reads midnight UTC, so a parsed day is a whole number of days in
 milliseconds; an unparseable one is None. `localeCompare` orders ISO days as code
 units do.
 */
module NpmHistory {
  import opened Texts
  import opened Calendar
  import opened Validate

  const MAX_RANGE_DAYS := 540

  datatype DateRange = DateRange(start: Text, end: Text)
  datatype Daily = Daily(day: Text, downloads: nat)

  /** A chunk as day numbers. */
  datatype Chunk = Chunk(start: int, end: int)

  function Chunks(start: int, end: int): seq<Chunk>
    decreases if start <= end then end - start + 1 else 0
  {
    if end < start then []
    else
      var last := if start + MAX_RANGE_DAYS - 1 < end then start + MAX_RANGE_DAYS - 1 else end;
      [Chunk(start, last)] + Chunks(last + 1, end)
  }

  ghost predicate Printable(start: int, end: int) {
    forall n :: start <= n <= end ==> FourDigitYear(n)
  }

  /** Ranges that print the chunks. */
  ghost predicate Prints(ranges: seq<DateRange>, chunks: seq<Chunk>) {
    && |ranges| == |chunks|
    && forall k :: 0 <= k < |chunks| ==>
         ranges[k] == DateRange(DayText(chunks[k].start), DayText(chunks[k].end))
  }

  datatype Unparseable = Unparseable

  /** A parsed day, if any, is a whole number of days. */
  predicate AtMidnight(ms: Option<int>) {
    ms.Some? ==> ms.value % MS_PER_DAY == 0
  }

  method PlanRanges(startMs: Option<int>, endMs: Option<int>) returns (r: Result<seq<DateRange>, Unparseable>)
    requires AtMidnight(startMs) && AtMidnight(endMs)
    ensures r.Ok? <==> startMs.Some? && endMs.Some?
    ensures r.Ok? ==> Prints(r.value, Chunks(DayOfInstant(startMs.value), DayOfInstant(endMs.value)))
  {
    hide *;
    if startMs.None? || endMs.None? { return Err(Unparseable); }
    ghost var start, end := DayOfInstant(startMs.value), DayOfInstant(endMs.value);
    MidnightOf(startMs);
    MidnightOf(endMs);
    PrintsNothing();
    DaysOrder(start, end);
    if endMs.value < startMs.value {
      NoChunks(start, end);
      return Ok([]);
    }
    ghost var done: seq<Chunk>, day := [], start;
    var ranges: seq<DateRange> := [];
    var cursorMs := startMs.value;
    DaysOrder(day, end);
    while cursorMs <= endMs.value
      invariant cursorMs == Midnight(day) && start <= day <= end + 1
      invariant cursorMs <= endMs.value <==> day <= end
      invariant Prints(ranges, done)
      invariant done + Chunks(day, end) == Chunks(start, end)
      decreases end - day
    {
      var reach := cursorMs + (MAX_RANGE_DAYS - 1) * MS_PER_DAY;
      var chunkEndMs := if reach < endMs.value then reach else endMs.value;
      ghost var last := if day + MAX_RANGE_DAYS - 1 < end then day + MAX_RANGE_DAYS - 1 else end;
      ChunkEnd(day, end);
      PrintsMore(ranges, done, day, last);
      ranges := ranges + [DateRange(DayText(DayOfInstant(cursorMs)), DayText(DayOfInstant(chunkEndMs)))];
      NextChunk(done, day, last, end);
      done, day := done + [Chunk(day, last)], last + 1;
      cursorMs := chunkEndMs + MS_PER_DAY;
      DaysOrder(day, end);
    }
    NoChunks(day, end);
    assert done + [] == done;
    return Ok(ranges);
  }

  lemma PrintsNothing()
    ensures Prints([], [])
  {
  }

  /** Where a day number starts, in milliseconds. */
  ghost function Midnight(n: int): int {
    n * MS_PER_DAY
  }

  lemma MidnightOf(ms: Option<int>)
    requires ms.Some? && AtMidnight(ms)
    ensures ms.value == Midnight(DayOfInstant(ms.value))
  {
  }

  lemma DaysOrder(m: int, n: int)
    ensures Midnight(m) <= Midnight(n) <==> m <= n
  {
  }

  /** The loop's cut in milliseconds is the chunk's last day. */
  lemma ChunkEnd(day: int, end: int)
    ensures var reach := Midnight(day) + (MAX_RANGE_DAYS - 1) * MS_PER_DAY;
            var last := if day + MAX_RANGE_DAYS - 1 < end then day + MAX_RANGE_DAYS - 1 else end;
            (if reach < Midnight(end) then reach else Midnight(end)) == Midnight(last) &&
            Midnight(last) + MS_PER_DAY == Midnight(last + 1) &&
            DayOfInstant(Midnight(day)) == day && DayOfInstant(Midnight(last)) == last &&
            (day <= end ==> day <= last <= end)
  {
  }

  /** Within four-digit years the requests carry ISO days. */
  lemma RangesAreIsoDays(ranges: seq<DateRange>, start: int, end: int, k: nat)
    requires Printable(start, end) && Prints(ranges, Chunks(start, end)) && k < |ranges|
    ensures var c := Chunks(start, end)[k];
            start <= c.start <= end && start <= c.end <= end &&
            ranges[k] == DateRange(IsoDay(c.start), IsoDay(c.end))
  {
    hide Chunks, IsoDay, FourDigitYear, Tiles, DayText;
    PlanTiles(start, end);
    TilesWithin(Chunks(start, end), start, end, k);
  }

  lemma {:induction false} TilesWithin(chunks: seq<Chunk>, start: int, end: int, k: nat)
    requires Tiles(chunks, start, end) && k < |chunks|
    ensures start <= chunks[k].start <= chunks[k].end <= end
    decreases |chunks|
  {
    StartsGrow(chunks, start, end);
    if k < |chunks| - 1 {
      TilesFront(chunks, start, end);
      TilesWithin(chunks[..|chunks| - 1], start, chunks[|chunks| - 1].start - 1, k);
    }
  }

  lemma PrintsMore(ranges: seq<DateRange>, done: seq<Chunk>, day: int, last: int)
    requires Prints(ranges, done)
    ensures Prints(ranges + [DateRange(DayText(day), DayText(last))], done + [Chunk(day, last)])
  {
    hide DayText;
  }

  lemma NoChunks(start: int, end: int)
    requires end < start
    ensures Chunks(start, end) == []
  {
  }

  lemma NextChunk(done: seq<Chunk>, day: int, last: int, end: int)
    requires day <= end && last == if day + MAX_RANGE_DAYS - 1 < end then day + MAX_RANGE_DAYS - 1 else end
    ensures done + Chunks(day, end) == (done + [Chunk(day, last)]) + Chunks(last + 1, end)
  {
  }

  // ---- The plan tiles the interval ------------------------------------------

  /** Non-empty chunks of at most 540 days, end to end from `start` to `end`. */
  ghost predicate Tiles(chunks: seq<Chunk>, start: int, end: int) {
    && (forall k :: 0 <= k < |chunks| ==> chunks[k].start <= chunks[k].end < chunks[k].start + MAX_RANGE_DAYS)
    && (forall k :: 0 <= k < |chunks| - 1 ==> chunks[k + 1].start == chunks[k].end + 1)
    && if chunks == [] then end < start else chunks[0].start == start && chunks[|chunks| - 1].end == end
  }

  lemma {:induction false} PlanTiles(start: int, end: int)
    ensures Tiles(Chunks(start, end), start, end)
    decreases if start <= end then end - start + 1 else 0
  {
    hide Chunks, Tiles;
    if start <= end {
      var last := if start + MAX_RANGE_DAYS - 1 < end then start + MAX_RANGE_DAYS - 1 else end;
      NextChunk([], start, last, end);
      PlanTiles(last + 1, end);
      TilesCons(Chunk(start, last), Chunks(last + 1, end), end);
      assert [] + Chunks(start, end) == Chunks(start, end) && [] + [Chunk(start, last)] == [Chunk(start, last)];
    } else {
      NoChunks(start, end);
      NoTiles(start, end);
    }
  }

  lemma NoTiles(start: int, end: int)
    requires end < start
    ensures Tiles([], start, end)
  {
  }

  lemma TilesCons(chunk: Chunk, rest: seq<Chunk>, end: int)
    requires chunk.start <= chunk.end < chunk.start + MAX_RANGE_DAYS && chunk.end <= end
    requires Tiles(rest, chunk.end + 1, end)
    ensures Tiles([chunk] + rest, chunk.start, end)
  {
  }

  /** Every day of the interval lies in exactly one chunk, and no other day in any. */
  lemma {:induction false} TilesCoverOnce(chunks: seq<Chunk>, start: int, end: int, day: int)
    requires Tiles(chunks, start, end)
    ensures start <= day <= end <==> exists k :: 0 <= k < |chunks| && chunks[k].start <= day <= chunks[k].end
    ensures forall j, k :: 0 <= j < k < |chunks| ==> chunks[j].end < chunks[k].start
    decreases |chunks|
  {
    hide Tiles;
    if chunks == [] {
      NothingTiled(start, end);
    } else {
      var first, rest := chunks[0], chunks[1..];
      TilesRest(chunks, start, end);
      TilesCoverOnce(rest, first.end + 1, end, day);
      StartsGrow(rest, first.end + 1, end);
      if first.end < day <= end {
        var k :| 0 <= k < |rest| && rest[k].start <= day <= rest[k].end;
        assert chunks[k + 1] == rest[k];
      }
      forall j, k | 0 <= j < k < |chunks| ensures chunks[j].end < chunks[k].start {
        assert chunks[k] == rest[k - 1];
        if j > 0 { assert chunks[j] == rest[j - 1]; }
      }
      forall k | 0 <= k < |chunks| && chunks[k].start <= day <= chunks[k].end ensures start <= day <= end {
        if k > 0 { assert rest[k - 1] == chunks[k]; }
      }
    }
  }

  lemma NothingTiled(start: int, end: int)
    requires Tiles([], start, end)
    ensures end < start
  {
  }

  lemma TilesRest(chunks: seq<Chunk>, start: int, end: int)
    requires Tiles(chunks, start, end) && chunks != []
    ensures start == chunks[0].start <= chunks[0].end <= end
    ensures Tiles(chunks[1..], chunks[0].end + 1, end)
  {
    var rest := chunks[1..];
    assert forall k :: 0 <= k < |rest| ==> rest[k] == chunks[k + 1];
    if rest != [] { EndAtLeast(rest, chunks[0].end + 1, end); }
  }

  lemma {:induction false} EndAtLeast(chunks: seq<Chunk>, start: int, end: int)
    requires Tiles(chunks, start, end)
    ensures chunks != [] ==> start <= end
    decreases |chunks|
  {
    if |chunks| > 1 {
      var rest := chunks[1..];
      assert forall k :: 0 <= k < |rest| ==> rest[k] == chunks[k + 1];
      EndAtLeast(rest, chunks[0].end + 1, end);
    }
  }

  lemma {:induction false} StartsGrow(chunks: seq<Chunk>, start: int, end: int)
    requires Tiles(chunks, start, end)
    ensures forall k :: 0 <= k < |chunks| ==> start <= chunks[k].start
    decreases |chunks|
  {
    if chunks != [] {
      var rest := chunks[1..];
      assert forall k :: 0 <= k < |rest| ==> rest[k] == chunks[k + 1];
      assert Tiles(rest, chunks[0].end + 1, end);
      StartsGrow(rest, chunks[0].end + 1, end);
      forall k | 0 <= k < |chunks| ensures start <= chunks[k].start {
        if k > 0 { assert chunks[k] == rest[k - 1]; }
      }
    }
  }

  lemma {:induction false} TilesReach(chunks: seq<Chunk>, start: int, end: int)
    requires Tiles(chunks, start, end)
    ensures end - start + 1 <= MAX_RANGE_DAYS * |chunks|
    decreases |chunks|
  {
    if chunks != [] {
      var rest := chunks[1..];
      assert forall k :: 0 <= k < |rest| ==> rest[k] == chunks[k + 1];
      assert Tiles(rest, chunks[0].end + 1, end);
      TilesReach(rest, chunks[0].end + 1, end);
    }
  }

  lemma {:induction false} PlanLength(start: int, end: int)
    ensures start <= end ==> MAX_RANGE_DAYS * (|Chunks(start, end)| - 1) < end - start + 1
    decreases if start <= end then end - start + 1 else 0
  {
    if start <= end {
      var chunk := Chunks(start, end)[0];
      assert Chunks(start, end) == [chunk] + Chunks(chunk.end + 1, end);
      PlanLength(chunk.end + 1, end);
    }
  }

  /** As many requests as whole or begun runs of 540 days. */
  lemma PlanSize(start: int, end: int)
    requires start <= end
    ensures 540 * (|Chunks(start, end)| - 1) < end - start + 1 <= 540 * |Chunks(start, end)|
  {
    PlanTiles(start, end);
    TilesReach(Chunks(start, end), start, end);
    PlanLength(start, end);
  }

  /** No tiling by chunks of at most 540 days uses fewer requests. */
  lemma PlanIsMinimal(chunks: seq<Chunk>, start: int, end: int)
    requires Tiles(chunks, start, end)
    ensures |Chunks(start, end)| <= |chunks|
  {
    TilesReach(chunks, start, end);
    PlanLength(start, end);
  }

  // ---- Merging the answers --------------------------------------------------

  function Flat(chunks: seq<seq<Daily>>): seq<Daily> {
    if chunks == [] then [] else Flat(chunks[..|chunks| - 1]) + chunks[|chunks| - 1]
  }

  ghost predicate DistinctDays(s: seq<Daily>) {
    forall i, j :: 0 <= i < j < |s| ==> s[i].day != s[j].day
  }

  ghost predicate AscendingDays(s: seq<Daily>) {
    forall i, j :: 0 <= i < j < |s| ==> Less(s[i].day, s[j].day)
  }

  function InsertDaily(x: Daily, s: seq<Daily>): (r: seq<Daily>)
    ensures multiset(r) == multiset(s) + multiset{x}
  {
    if s == [] then [x]
    else if AtMost(x.day, s[0].day) then [x] + s
    else
      assert s == [s[0]] + s[1..];
      [s[0]] + InsertDaily(x, s[1..])
  }

  /** `.sort((a, b) => a.day.localeCompare(b.day))`. */
  function SortDaily(s: seq<Daily>): (r: seq<Daily>)
    ensures multiset(r) == multiset(s)
  {
    if s == [] then []
    else
      assert s == [s[0]] + s[1..];
      InsertDaily(s[0], SortDaily(s[1..]))
  }

  ghost function DaysOf(s: seq<Daily>): set<Text> {
    set k | 0 <= k < |s| :: s[k].day
  }

  lemma NewDay(s: seq<Daily>, x: Daily)
    requires DistinctDays(s) && x.day !in DaysOf(s)
    ensures DistinctDays(s + [x]) && DaysOf(s + [x]) == DaysOf(s) + {x.day}
  {
    var t := s + [x];
    forall k | 0 <= k < |s| ensures s[k].day in DaysOf(s) {}
    forall d ensures d in DaysOf(t) <==> d in DaysOf(s) + {x.day} {
      if d in DaysOf(s) {
        var k :| 0 <= k < |s| && s[k].day == d;
        assert t[k].day == d;
      }
      assert t[|s|] == x;
    }
  }

  method MergeDaily(chunks: seq<seq<Daily>>) returns (r: Result<seq<Daily>, Text>)
    ensures r.Ok? <==> DistinctDays(Flat(chunks))
    ensures r.Ok? ==> r.value == SortDaily(Flat(chunks))
  {
    hide SortDaily, InsertDaily;
    var days: set<Text> := {};
    var byDay: seq<Daily> := [];
    for i := 0 to |chunks|
      invariant byDay == Flat(chunks[..i]) && DistinctDays(byDay) && days == DaysOf(byDay)
    {
      assert chunks[..i + 1][..i] == chunks[..i];
      for j := 0 to |chunks[i]|
        invariant byDay == Flat(chunks[..i]) + chunks[i][..j] && DistinctDays(byDay) && days == DaysOf(byDay)
      {
        var entry := chunks[i][j];
        if entry.day in days {
          RepeatedDay(chunks, i, j, byDay);
          return Err(entry.day);
        }
        NewDay(byDay, entry);
        days := days + {entry.day};
        byDay := byDay + [entry];
      }
      assert chunks[i][..|chunks[i]|] == chunks[i];
    }
    assert chunks[..|chunks|] == chunks;
    return Ok(SortDaily(byDay));
  }

  lemma {:induction false} FlatPrefix(chunks: seq<seq<Daily>>, i: nat)
    requires i <= |chunks|
    ensures |Flat(chunks[..i])| <= |Flat(chunks)| && Flat(chunks)[..|Flat(chunks[..i])|] == Flat(chunks[..i])
    decreases |chunks|
  {
    if i == |chunks| {
      assert chunks[..i] == chunks;
    } else {
      var front := chunks[..|chunks| - 1];
      assert front[..i] == chunks[..i];
      FlatPrefix(front, i);
    }
  }

  lemma RepeatedDay(chunks: seq<seq<Daily>>, i: nat, j: nat, byDay: seq<Daily>)
    requires i < |chunks| && j < |chunks[i]| && byDay == Flat(chunks[..i]) + chunks[i][..j]
    requires chunks[i][j].day in DaysOf(byDay)
    ensures !DistinctDays(Flat(chunks))
  {
    var k :| 0 <= k < |byDay| && byDay[k].day == chunks[i][j].day;
    assert chunks[..i + 1][..i] == chunks[..i];
    FlatPrefix(chunks, i + 1);
    var head := Flat(chunks[..i + 1]);
    assert head == Flat(chunks[..i]) + chunks[i];
    assert head[k] == byDay[k] && head[|byDay|] == chunks[i][j];
    var flat := Flat(chunks);
    assert flat[k] == head[k] && flat[|byDay|] == head[|byDay|];
  }

  // ---- Complete answers merge into the whole series -------------------------

  /** The one-shot series: every day of the interval in order, with its downloads. */
  function Series(start: int, end: int, downloads: int -> nat): seq<Daily>
    requires Printable(start, end)
    decreases if start <= end then end - start + 1 else 0
  {
    if end < start then [] else Series(start, end - 1, downloads) + [Daily(IsoDay(end), downloads(end))]
  }

  /** Each chunk's answer has each of its days once, in any order. */
  ghost predicate Complete(answers: seq<seq<Daily>>, chunks: seq<Chunk>, downloads: int -> nat) {
    && |answers| == |chunks|
    && forall k :: 0 <= k < |chunks| ==>
         Printable(chunks[k].start, chunks[k].end) &&
         multiset(answers[k]) == multiset(Series(chunks[k].start, chunks[k].end, downloads))
  }

  lemma {:induction false} SeriesLength(start: int, end: int, downloads: int -> nat)
    requires Printable(start, end)
    ensures |Series(start, end, downloads)| == if end < start then 0 else end - start + 1
    decreases if start <= end then end - start + 1 else 0
  {
    if start <= end { SeriesLength(start, end - 1, downloads); }
  }

  lemma {:induction false} SeriesDay(start: int, end: int, downloads: int -> nat, k: nat)
    requires Printable(start, end) && k < |Series(start, end, downloads)|
    ensures start + k <= end && FourDigitYear(start + k)
    ensures Series(start, end, downloads)[k].day == IsoDay(start + k)
    decreases if start <= end then end - start + 1 else 0
  {
    hide *;
    SeriesLength(start, end, downloads);
    SeriesStep(start, end, downloads);
    SeriesLength(start, end - 1, downloads);
    if start + k < end { SeriesDay(start, end - 1, downloads, k); }
  }

  lemma SeriesStep(start: int, end: int, downloads: int -> nat)
    requires Printable(start, end)
    ensures Printable(start, end - 1)
    ensures start <= end ==> FourDigitYear(end) && Series(start, end, downloads) ==
                             Series(start, end - 1, downloads) + [Daily(IsoDay(end), downloads(end))]
    ensures end < start ==> Series(start, end, downloads) == []
  {
    hide IsoDay, FourDigitYear;
  }

  lemma SeriesAscends(start: int, end: int, downloads: int -> nat)
    requires Printable(start, end)
    ensures AscendingDays(Series(start, end, downloads))
  {
    hide Series, IsoDay, FourDigitYear, Less;
    var series := Series(start, end, downloads);
    forall i, j | 0 <= i < j < |series| ensures Less(series[i].day, series[j].day) {
      SeriesDay(start, end, downloads, i);
      SeriesDay(start, end, downloads, j);
      IsoOrderIsDayOrder(start + i, start + j);
    }
  }

  lemma {:induction false} SeriesConcat(start: int, mid: int, end: int, downloads: int -> nat)
    requires start <= mid + 1 && mid <= end && Printable(start, end)
    ensures Series(start, mid, downloads) + Series(mid + 1, end, downloads) == Series(start, end, downloads)
    decreases end - mid
  {
    hide Series, IsoDay, FourDigitYear;
    SeriesStep(mid + 1, end, downloads);
    if mid < end {
      SeriesStep(start, end, downloads);
      SeriesConcat(start, mid, end - 1, downloads);
    } else {
      assert Series(start, mid, downloads) + [] == Series(start, mid, downloads);
    }
  }

  lemma {:induction false} AnswersHoldSeries(answers: seq<seq<Daily>>, chunks: seq<Chunk>, start: int, end: int,
                                             downloads: int -> nat)
    requires Tiles(chunks, start, end) && Printable(start, end) && Complete(answers, chunks, downloads)
    ensures multiset(Flat(answers)) == multiset(Series(start, end, downloads))
    decreases |chunks|
  {
    hide *;
    if chunks == [] {
      NothingAnswered(answers, start, end, downloads);
    } else {
      var n := |chunks| - 1;
      var last := chunks[n];
      TilesFront(chunks, start, end);
      CompleteFront(answers, chunks, downloads);
      PrintableWithin(start, end, start, last.start - 1);
      PrintableWithin(start, end, last.start, end);
      SeriesConcat(start, last.start - 1, end, downloads);
      AnswersHoldSeries(answers[..n], chunks[..n], start, last.start - 1, downloads);
      FlatFront(answers);
    }
  }

  lemma NothingAnswered(answers: seq<seq<Daily>>, start: int, end: int, downloads: int -> nat)
    requires Tiles([], start, end) && Printable(start, end) && Complete(answers, [], downloads)
    ensures Flat(answers) == Series(start, end, downloads) == []
  {
  }

  lemma PrintableWithin(start: int, end: int, from: int, to: int)
    requires Printable(start, end) && start <= from && to <= end
    ensures Printable(from, to)
  {
  }

  lemma FlatFront(answers: seq<seq<Daily>>)
    requires answers != []
    ensures Flat(answers) == Flat(answers[..|answers| - 1]) + answers[|answers| - 1]
  {
  }

  lemma CompleteFront(answers: seq<seq<Daily>>, chunks: seq<Chunk>, downloads: int -> nat)
    requires Complete(answers, chunks, downloads) && chunks != []
    ensures var n := |chunks| - 1;
            && |answers| == n + 1 && Complete(answers[..n], chunks[..n], downloads)
            && Printable(chunks[n].start, chunks[n].end)
            && multiset(answers[n]) == multiset(Series(chunks[n].start, chunks[n].end, downloads))
  {
    hide Series, Printable;
  }

  lemma TilesFront(chunks: seq<Chunk>, start: int, end: int)
    requires Tiles(chunks, start, end) && chunks != []
    ensures var last := chunks[|chunks| - 1];
            Tiles(chunks[..|chunks| - 1], start, last.start - 1) && start <= last.start <= last.end == end
  {
    var front := chunks[..|chunks| - 1];
    StartsGrow(chunks, start, end);
    if front != [] { assert chunks[|front| - 1 + 1].start == chunks[|front| - 1].end + 1; }
  }

  lemma {:induction false} InsertKeepsAscending(x: Daily, s: seq<Daily>)
    requires AscendingDays(s) && forall k :: 0 <= k < |s| ==> s[k].day != x.day
    ensures AscendingDays(InsertDaily(x, s))
  {
    if s != [] {
      LessTotal(x.day, s[0].day);
      if AtMost(x.day, s[0].day) {
        forall k | 0 <= k < |s| ensures Less(x.day, s[k].day) {
          if k > 0 { LessTransitive(x.day, s[0].day, s[k].day); }
        }
      } else {
        InsertKeepsAscending(x, s[1..]);
        var rest := InsertDaily(x, s[1..]);
        forall k | 0 <= k < |rest| ensures Less(s[0].day, rest[k].day) {
          assert rest[k] in multiset(rest);
          assert rest[k] == x || rest[k] in s[1..];
        }
      }
    }
  }

  lemma {:induction false} SortAscends(s: seq<Daily>)
    requires DistinctDays(s)
    ensures AscendingDays(SortDaily(s))
  {
    if s != [] {
      var rest := SortDaily(s[1..]);
      SortAscends(s[1..]);
      forall k | 0 <= k < |rest| ensures rest[k].day != s[0].day {
        assert rest[k] in multiset(rest);
        var j :| 0 <= j < |s[1..]| && s[1..][j] == rest[k];
        assert s[j + 1] == rest[k];
      }
      InsertKeepsAscending(s[0], rest);
    }
  }

  lemma {:induction false} AscendingUnique(a: seq<Daily>, b: seq<Daily>)
    requires AscendingDays(a) && AscendingDays(b) && multiset(a) == multiset(b)
    ensures a == b
    decreases |a|
  {
    hide *;
    assert |a| == |multiset(a)| == |multiset(b)| == |b|;
    if a != [] {
      SameFirst(a, b);
      AscendingTail(a);
      AscendingTail(b);
      AscendingUnique(a[1..], b[1..]);
    }
  }

  lemma AscendingTail(s: seq<Daily>)
    requires AscendingDays(s) && s != []
    ensures s == [s[0]] + s[1..] && AscendingDays(s[1..])
    ensures multiset(s[1..]) == multiset(s) - multiset{s[0]}
  {
    hide Less;
    assert s == [s[0]] + s[1..];
  }

  lemma SameFirst(a: seq<Daily>, b: seq<Daily>)
    requires AscendingDays(a) && AscendingDays(b) && multiset(a) == multiset(b) && a != [] && b != []
    ensures a[0] == b[0]
  {
    assert a[0] in multiset(b) && b[0] in multiset(a);
    var j :| 0 <= j < |b| && b[j] == a[0];
    var i :| 0 <= i < |a| && a[i] == b[0];
    if j > 0 && i > 0 { LessTotal(a[0].day, b[0].day); }
  }

  lemma {:induction false} PermutedDistinct(a: seq<Daily>, b: seq<Daily>)
    requires DistinctDays(b) && multiset(a) == multiset(b)
    ensures DistinctDays(a)
  {
    forall i, j | 0 <= i < j < |a| ensures a[i].day != a[j].day {
      assert a[i] in multiset(b) && a[j] in multiset(b);
      var p :| 0 <= p < |b| && b[p] == a[i];
      var q :| 0 <= q < |b| && b[q] == a[j];
      if p == q { Twice(a, i, j); OnceAt(b, p); }
    }
  }

  lemma Twice(a: seq<Daily>, i: nat, j: nat)
    requires i < j < |a| && a[i] == a[j]
    ensures multiset(a)[a[i]] >= 2
  {
    assert a == a[..i] + ([a[i]] + a[i + 1..]);
    assert a[i + 1..][j - i - 1] == a[j];
    assert a[j] in multiset(a[i + 1..]);
  }

  lemma OnceAt(b: seq<Daily>, p: nat)
    requires DistinctDays(b) && p < |b|
    ensures multiset(b)[b[p]] == 1
  {
    assert b == b[..p] + ([b[p]] + b[p + 1..]);
    assert b[p] !in b[..p] && b[p] !in b[p + 1..];
  }

  /** Complete answers to the planned requests always merge, into exactly the one-shot series. */
  lemma CompleteAnswersMerge(answers: seq<seq<Daily>>, start: int, end: int, downloads: int -> nat)
    requires Printable(start, end) && Complete(answers, Chunks(start, end), downloads)
    ensures DistinctDays(Flat(answers))
    ensures SortDaily(Flat(answers)) == Series(start, end, downloads)
  {
    PlanTiles(start, end);
    AnswersHoldSeries(answers, Chunks(start, end), start, end, downloads);
    SeriesAscends(start, end, downloads);
    var series := Series(start, end, downloads);
    forall i, j | 0 <= i < j < |series| ensures series[i].day != series[j].day {
      LessTotal(series[i].day, series[j].day);
    }
    hide Series, Chunks, Flat, SortDaily, Less;
    PermutedDistinct(Flat(answers), series);
    SortAscends(Flat(answers));
    AscendingUnique(SortDaily(Flat(answers)), series);
  }

  // ---- Sums -----------------------------------------------------------------

  function SumDownloads(series: seq<Daily>): nat {
    if series == [] then 0 else series[0].downloads + SumDownloads(series[1..])
  }

  lemma {:induction false} SumAppend(s: seq<Daily>, t: seq<Daily>)
    ensures SumDownloads(s + t) == SumDownloads(s) + SumDownloads(t)
    decreases |s|
  {
    if s == [] {
      assert s + t == t;
    } else {
      assert (s + t)[1..] == s[1..] + t;
      SumAppend(s[1..], t);
    }
  }

  /** Totals of two adjacent intervals add up to the total of both. */
  lemma TotalsAgree(start: int, mid: int, end: int, downloads: int -> nat)
    requires start <= mid + 1 && mid <= end && Printable(start, end)
    ensures SumDownloads(Series(start, end, downloads)) ==
            SumDownloads(Series(start, mid, downloads)) + SumDownloads(Series(mid + 1, end, downloads))
  {
    SeriesConcat(start, mid, end, downloads);
    SumAppend(Series(start, mid, downloads), Series(mid + 1, end, downloads));
  }

  function InWindow(series: seq<Daily>, startMs: int, endMs: int, parseDay: Text -> Option<int>): seq<Daily> {
    if series == [] then []
    else
      var ms := parseDay(series[0].day);
      (if ms.Some? && startMs <= ms.value <= endMs then [series[0]] else []) +
      InWindow(series[1..], startMs, endMs, parseDay)
  }

  /** The `days` calendar days up to and including `endMs`'s. */
  function SumTrailing(series: seq<Daily>, endMs: int, days: nat, parseDay: Text -> Option<int>): nat {
    SumDownloads(InWindow(series, endMs - (days - 1) * MS_PER_DAY, endMs, parseDay))
  }

  /** Trailing windows that meet end to end add up, whatever the series and its order. */
  lemma {:induction false} TrailingWindowsAdd(
    series: seq<Daily>, endMs: int, days: nat, earlier: nat, parseDay: Text -> Option<int>)
    requires AtMidnight(Some(endMs))
    requires forall k :: 0 <= k < |series| ==> AtMidnight(parseDay(series[k].day))
    ensures SumTrailing(series, endMs, days + earlier, parseDay) ==
            SumTrailing(series, endMs, days, parseDay) +
            SumTrailing(series, endMs - days * MS_PER_DAY, earlier, parseDay)
    decreases |series|
  {
    hide *;
    if series != [] {
      TrailingWindowsAdd(series[1..], endMs, days, earlier, parseDay);
      SumTrailingCons(series, endMs, days + earlier, parseDay);
      SumTrailingCons(series, endMs, days, parseDay);
      SumTrailingCons(series, endMs - days * MS_PER_DAY, earlier, parseDay);
      WindowsMeet(parseDay(series[0].day), endMs, days, earlier);
    } else {
      NoTrailing(endMs, days, earlier, parseDay);
    }
  }

  lemma NoTrailing(endMs: int, days: nat, earlier: nat, parseDay: Text -> Option<int>)
    ensures SumTrailing([], endMs, days + earlier, parseDay) ==
            SumTrailing([], endMs, days, parseDay) == SumTrailing([], endMs - days * MS_PER_DAY, earlier, parseDay) == 0
  {
  }

  /** A reading of a day falls in the trailing window. */
  predicate Within(ms: Option<int>, endMs: int, days: nat) {
    ms.Some? && endMs - (days - 1) * MS_PER_DAY <= ms.value <= endMs
  }

  lemma SumTrailingCons(series: seq<Daily>, endMs: int, days: nat, parseDay: Text -> Option<int>)
    requires series != []
    ensures SumTrailing(series, endMs, days, parseDay) ==
            (if Within(parseDay(series[0].day), endMs, days) then series[0].downloads else 0) +
            SumTrailing(series[1..], endMs, days, parseDay)
  {
    var tail := InWindow(series[1..], endMs - (days - 1) * MS_PER_DAY, endMs, parseDay);
    assert ([series[0]] + tail)[1..] == tail;
    assert [] + tail == tail;
  }

  /** Whole days fall in the joint window, and in one of its two parts, alike. */
  lemma WindowsMeet(ms: Option<int>, endMs: int, days: nat, earlier: nat)
    requires AtMidnight(ms) && AtMidnight(Some(endMs))
    ensures Within(ms, endMs, days + earlier) <==>
            Within(ms, endMs, days) || Within(ms, endMs - days * MS_PER_DAY, earlier)
    ensures !(Within(ms, endMs, days) && Within(ms, endMs - days * MS_PER_DAY, earlier))
  {
    if ms.Some? {
      hide DayOfInstant, AtMidnight;
      MidnightOf(ms);
      MidnightOf(Some(endMs));
    }
  }
}

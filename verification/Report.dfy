/**
 The counters as `readUsage` of apps/usage-worker/src/report-sources.ts sums them.
 A query returns the rows of a table in some order; `GROUP BY` is one more tally.
 */
module Report {
  import opened Texts
  import opened Tallies
  import opened Validate
  import opened Aggregate
  import opened Ingress

  datatype DayName = DayName(day: Text, name: Text)

  /** `rows` lists every row of the table once. */
  ghost predicate Lists<K>(rows: seq<Bump<K>>, t: map<K, nat>) {
    && (forall i, j :: 0 <= i < j < |rows| ==> rows[i].key != rows[j].key)
    && (forall i :: 0 <= i < |rows| ==> rows[i].key in t && t[rows[i].key] == rows[i].amount)
    && (forall k :: k in t ==> Mentions(rows, k))
  }

  function GroupKey(k: CountKey): DayName {
    DayName(k.day, k.eventName)
  }

  /** `SELECT day, event_name, SUM(count) ... GROUP BY day, event_name`. */
  function Grouped(rows: seq<Bump<CountKey>>): map<DayName, nat> {
    AddAll(map[], seq(|rows|, i requires 0 <= i < |rows| => Bump(GroupKey(rows[i].key), rows[i].amount)))
  }

  /** The report's `sum(predicate)`: filter the grouped rows, then add their counts. */
  method SumRows(counts: seq<Bump<DayName>>, p: DayName -> bool) returns (total: nat)
    ensures total == SumWhere(counts, p)
  {
    total := 0;
    assert counts[0..] == counts;
    for i := 0 to |counts|
      invariant total + SumWhere(counts[i..], p) == SumWhere(counts, p)
    {
      assert counts[i..][1..] == counts[i + 1..];
      if p(counts[i].key) { total := total + counts[i].amount; }
    }
  }

  predicate PreflightRow(g: DayName) {
    g.name == PREFLIGHT
  }

  /** The names the report counts as needing attention. */
  const ATTENTION_NAMES: set<Text> :=
    {Ascii("scan_verdict_review"), Ascii("scan_verdict_block"), Ascii("scan_verdict_unknown")}

  predicate AttentionRow(g: DayName) {
    g.name in ATTENTION_NAMES
  }

  function CountWhere(events: seq<HashedEvent>, p: DayName -> bool): nat
    decreases |events|
  {
    if events == [] then 0 else (if p(GroupKey(KeyOf(events[0]))) then 1 else 0) + CountWhere(events[1..], p)
  }

  // ---- Listing, grouping and summing lose nothing ----------------------------

  lemma {:induction false} DistinctSum<K>(rows: seq<Bump<K>>, i: nat)
    requires i < |rows|
    requires forall i, j :: 0 <= i < j < |rows| ==> rows[i].key != rows[j].key
    ensures Sum(rows, rows[i].key) == rows[i].amount
    decreases |rows|
  {
    var key, rest := rows[i].key, rows[1..];
    if i == 0 {
      NoSum(rest, key);
    } else {
      assert rest[i - 1] == rows[i] && rows[0].key != key;
      DistinctSum(rest, i - 1);
    }
  }

  lemma {:induction false} NoSum<K>(rows: seq<Bump<K>>, k: K)
    requires forall i :: 0 <= i < |rows| ==> rows[i].key != k
    ensures Sum(rows, k) == 0
    decreases |rows|
  {
    if rows != [] { NoSum(rows[1..], k); }
  }

  lemma ListedTable<K(!new)>(rows: seq<Bump<K>>, t: map<K, nat>)
    requires Lists(rows, t)
    ensures AddAll(map[], rows) == t
  {
    var u := AddAll(map[], rows);
    forall k ensures k in u.Keys <==> k in t.Keys { AddAllGet(map[], rows, k); }
    forall k | k in t ensures u[k] == t[k] {
      AddAllGet(map[], rows, k);
      var i :| 0 <= i < |rows| && rows[i].key == k;
      DistinctSum(rows, i);
    }
  }

  lemma ListedTotal<K(!new)>(rows: seq<Bump<K>>, t: map<K, nat>, p: K -> bool)
    requires Lists(rows, t)
    ensures SumWhere(rows, p) == Total(t, p)
  {
    ListedTable(rows, t);
    TotalAddAll(map[], p, rows);
  }

  lemma {:induction false} GroupedSum(rows: seq<Bump<CountKey>>, p: DayName -> bool)
    ensures var groups := seq(|rows|, i requires 0 <= i < |rows| => Bump(GroupKey(rows[i].key), rows[i].amount));
            SumWhere(groups, p) == SumWhere(rows, k => p(GroupKey(k)))
    decreases |rows|
  {
    if rows != [] {
      var groups := seq(|rows|, i requires 0 <= i < |rows| => Bump(GroupKey(rows[i].key), rows[i].amount));
      var rest := rows[1..];
      assert groups[1..] == seq(|rest|, i requires 0 <= i < |rest| => Bump(GroupKey(rest[i].key), rest[i].amount));
      GroupedSum(rest, p);
    }
  }

  lemma {:induction false} EventsSum(events: seq<HashedEvent>, p: DayName -> bool)
    ensures SumWhere(EventBumps(events), k => p(GroupKey(k))) == CountWhere(events, p)
    decreases |events|
  {
    if events != [] {
      assert EventBumps(events)[1..] == EventBumps(events[1..]);
      EventsSum(events[1..], p);
    }
  }

  /** For every selection of days and event names, the report's sum over a table that counts some events. */
  lemma ReportSumsTable(events: seq<HashedEvent>, rows: seq<Bump<CountKey>>, groups: seq<Bump<DayName>>,
                        p: DayName -> bool)
    requires Lists(rows, AddAll(map[], EventBumps(events))) && Lists(groups, Grouped(rows))
    ensures SumWhere(groups, p) == CountWhere(events, p)
  {
    hide Lists, EventBumps, CountWhere, SumWhere, Total;
    var q := (k: CountKey) => p(GroupKey(k));
    ListedTotal(groups, Grouped(rows), p);
    GroupedTotal(rows, p);
    ListedTotal(rows, AddAll(map[], EventBumps(events)), q);
    TotalAddAll(map[], q, EventBumps(events));
    EmptyTotal(q);
    EventsSum(events, p);
  }

  /**
   For every selection of days and event names, the report's sum over the counters is
   the number of accepted events in that selection, whatever batches they came in,
   however the handlers raced and in whatever order the queries list their rows.
   */
  lemma ReportSumsAcceptedEvents(requests: seq<Request>, moves: seq<Move>,
                                 rows: seq<Bump<CountKey>>, groups: seq<Bump<DayName>>, p: DayName -> bool)
    requires StorableRequests(requests)
    requires Lists(rows, Run(requests, Begin(EMPTY, requests), moves).db.counts) && Lists(groups, Grouped(rows))
    ensures SumWhere(groups, p) ==
            CountWhere(AllEvents(Run(requests, Begin(EMPTY, requests), moves).committed), p)
  {
    hide StorableRequests, Run, AllEvents, Lists, EventBumps, CountWhere, SumWhere;
    RacingHandlersCountOnce(EMPTY, requests, moves);
    ReportSumsTable(AllEvents(Run(requests, Begin(EMPTY, requests), moves).committed), rows, groups, p);
  }

  /** The events whose own day and name are selected. */
  function SelectedEvents(events: seq<HashedEvent>, p: DayName -> bool): seq<HashedEvent> {
    if events == [] then []
    else
      var e := events[0].event;
      (if p(DayName(DayOf(e.timestamp), e.eventName)) then [events[0]] else []) + SelectedEvents(events[1..], p)
  }

  /** A row is selected by the day and name of its events. */
  lemma {:induction false} CountWhereIsSelected(events: seq<HashedEvent>, p: DayName -> bool)
    ensures CountWhere(events, p) == |SelectedEvents(events, p)|
    decreases |events|
  {
    hide DayOf;
    if events != [] { CountWhereIsSelected(events[1..], p); }
  }

  /** Cumulative preflights: the accepted `preflight_completed` events. */
  lemma PreflightFigureCountsAccepted(requests: seq<Request>, moves: seq<Move>,
                                      rows: seq<Bump<CountKey>>, groups: seq<Bump<DayName>>)
    requires StorableRequests(requests)
    requires Lists(rows, Run(requests, Begin(EMPTY, requests), moves).db.counts) && Lists(groups, Grouped(rows))
    ensures SumWhere(groups, PreflightRow) ==
            |Preflighted(AllEvents(Run(requests, Begin(EMPTY, requests), moves).committed))|
  {
    hide StorableRequests, Run, AllEvents, Lists, CountWhere, SumWhere;
    ReportSumsAcceptedEvents(requests, moves, rows, groups, PreflightRow);
    PreflightsCounted(AllEvents(Run(requests, Begin(EMPTY, requests), moves).committed));
  }

  function Preflighted(events: seq<HashedEvent>): seq<HashedEvent> {
    if events == [] then []
    else (if IsPreflight(events[0].event) then [events[0]] else []) + Preflighted(events[1..])
  }

  lemma {:induction false} PreflightsCounted(events: seq<HashedEvent>)
    ensures CountWhere(events, PreflightRow) == |Preflighted(events)|
    decreases |events|
  {
    if events != [] { PreflightsCounted(events[1..]); }
  }

  const EMPTY := Db(map[], map[], map[], map[])

  lemma EmptyTotal<K(!new)>(p: K -> bool)
    ensures Total(map[], p) == 0
  {
  }

  lemma GroupedTotal(rows: seq<Bump<CountKey>>, p: DayName -> bool)
    ensures Total(Grouped(rows), p) == SumWhere(rows, k => p(GroupKey(k)))
  {
    var groups := seq(|rows|, i requires 0 <= i < |rows| => Bump(GroupKey(rows[i].key), rows[i].amount));
    TotalAddAll(map[], p, groups);
    EmptyTotal(p);
    GroupedSum(rows, p);
  }

  // ---- The attention figure -------------------------------------------------

  const LOWER_S: Unit := 0x73

  lemma AllowedNamesStartOtherwise(t: Text)
    requires t in ALLOWED_EVENTS
    ensures t != [] && t[0] != LOWER_S
  {
  }

  lemma AttentionNamesStartWithS(t: Text)
    requires t in ATTENTION_NAMES
    ensures t != [] && t[0] == LOWER_S
  {
  }

  lemma {:induction false} NoAttentionCounted(events: seq<HashedEvent>)
    requires forall i :: 0 <= i < |events| ==> events[i].event.eventName in ALLOWED_EVENTS
    ensures CountWhere(events, AttentionRow) == 0
    decreases |events|
  {
    if events != [] {
      hide ALLOWED_EVENTS, ATTENTION_NAMES;
      AllowedNamesStartOtherwise(events[0].event.eventName);
      if events[0].event.eventName in ATTENTION_NAMES { AttentionNamesStartWithS(events[0].event.eventName); }
      NoAttentionCounted(events[1..]);
    }
  }

  ghost predicate AllowedEvents(events: seq<HashedEvent>) {
    forall k :: 0 <= k < |events| ==> events[k].event.eventName in ALLOWED_EVENTS
  }

  ghost predicate AllowedRequests(rs: seq<Request>) {
    forall i :: 0 <= i < |rs| ==> AllowedEvents(rs[i].events)
  }

  lemma {:induction false} AllowedFlat(rs: seq<Request>)
    requires AllowedRequests(rs)
    ensures AllowedEvents(AllEvents(rs))
    decreases |rs|
  {
    hide ALLOWED_EVENTS;
    if rs != [] { AllowedFlat(rs[..|rs| - 1]); }
  }

  lemma {:induction false} CommittedAllowed(requests: seq<Request>, w: World, moves: seq<Move>)
    requires |w.phases| == |requests| && AllowedRequests(requests) && AllowedRequests(w.committed)
    ensures AllowedRequests(Run(requests, w, moves).committed)
    decreases |moves|
  {
    if moves != [] {
      hide AllowedEvents, Transaction;
      CommittedAllowed(requests, Step(requests, w, moves[0]), moves[1..]);
    }
  }

  /**
   The report reads attention off event names that validation never accepts: its
   figure is 0 for every accepted traffic.
   */
  lemma AttentionFigureIsAlwaysZero(requests: seq<Request>, moves: seq<Move>,
                                    rows: seq<Bump<CountKey>>, groups: seq<Bump<DayName>>)
    requires StorableRequests(requests) && AllowedRequests(requests)
    requires Lists(rows, Run(requests, Begin(EMPTY, requests), moves).db.counts) && Lists(groups, Grouped(rows))
    ensures SumWhere(groups, AttentionRow) == 0
  {
    hide StorableRequests, Run, AllEvents, Lists, CountWhere, SumWhere, ALLOWED_EVENTS;
    CommittedAllowed(requests, Begin(EMPTY, requests), moves);
    var committed := Run(requests, Begin(EMPTY, requests), moves).committed;
    AllowedFlat(committed);
    NoAttentionCounted(AllEvents(committed));
    ReportSumsAcceptedEvents(requests, moves, rows, groups, AttentionRow);
  }
}

/**
 What the tables hold, read off the events themselves: how many events have the seven
 values of a counter row, and how many of an installation's day are preflights or call
 for attention.
 */
module EventCounts {
  import opened Texts
  import opened Tallies
  import opened Validate
  import opened Aggregate
  import opened Ingress

  // ---- Counter rows -----------------------------------------------------------

  /** The event's day and its six other dimensions are those of the row. */
  predicate SevenAre(e: Event, k: CountKey) {
    && DayOf(e.timestamp) == k.day && e.eventName == k.eventName && e.source == k.source
    && e.hostFamily == k.hostFamily && e.inputKind == k.inputKind && e.productVersion == k.productVersion
    && e.discoverySurface == k.discoverySurface
  }

  predicate SameSeven(a: Event, b: Event) {
    && DayOf(a.timestamp) == DayOf(b.timestamp) && a.eventName == b.eventName && a.source == b.source
    && a.hostFamily == b.hostFamily && a.inputKind == b.inputKind && a.productVersion == b.productVersion
    && a.discoverySurface == b.discoverySurface
  }

  function HowMany(events: seq<HashedEvent>, k: CountKey): nat {
    if events == [] then 0
    else HowMany(events[..|events| - 1], k) + (if SevenAre(events[|events| - 1].event, k) then 1 else 0)
  }

  /** Two events fall in one row exactly when their day and the six other dimensions agree. */
  lemma OneRowIff(a: HashedEvent, b: HashedEvent)
    requires Storable(a.event) && Storable(b.event)
    ensures JoinedKey(KeyOf(a)) == JoinedKey(KeyOf(b)) <==> SameSeven(a.event, b.event)
  {
    StorableKey(a);
    StorableKey(b);
    JoinedKeyInjective(KeyOf(a), KeyOf(b));
  }

  lemma SumIsHowMany(events: seq<HashedEvent>, k: CountKey)
    ensures Sum(EventBumps(events), k) == HowMany(events, k)
    ensures Mentions(EventBumps(events), k) <==> HowMany(events, k) > 0
    decreases |events|
  {
    hide DayOf;
    if events != [] {
      var prefix, e := events[..|events| - 1], events[|events| - 1];
      SumIsHowMany(prefix, k);
      SumAppend(EventBumps(prefix), Bump(KeyOf(e), 1), k);
      assert EventBumps(events) == EventBumps(prefix) + [Bump(KeyOf(e), 1)];
    }
  }

  lemma RowIsMentioned(rows: seq<CountRow>, r: nat)
    requires r < |rows|
    ensures Mentions(CountBumps(rows), rows[r].key)
  {
    assert CountBumps(rows)[r].key == rows[r].key;
  }

  lemma {:induction false} OnlyRowSums(rows: seq<CountRow>, r: nat)
    requires r < |rows| && DistinctRows(rows)
    ensures Sum(CountBumps(rows), rows[r].key) == rows[r].count
    decreases |rows|
  {
    hide JoinedKey;
    var rest := rows[1..];
    var bs := CountBumps(rows);
    assert bs[1..] == CountBumps(rest);
    if r == 0 {
      forall i | 0 <= i < |rest| ensures rest[i].key != rows[0].key { assert rows[i + 1] == rest[i]; }
      NotSummed(rest, rows[0].key);
    } else {
      assert rest[r - 1] == rows[r] && rows[0].key != rows[r].key;
      OnlyRowSums(rest, r - 1);
    }
  }

  lemma {:induction false} NotSummed(rows: seq<CountRow>, k: CountKey)
    requires forall i :: 0 <= i < |rows| ==> rows[i].key != k
    ensures Sum(CountBumps(rows), k) == 0
    decreases |rows|
  {
    if rows != [] {
      assert CountBumps(rows)[1..] == CountBumps(rows[1..]);
      NotSummed(rows[1..], k);
    }
  }

  /** Every row has the values of the events counted in it, and counts all of those, at least one. */
  lemma RowCountsItsEvents(events: seq<HashedEvent>, r: nat)
    requires AllStorable(events) && r < |CountRows(events)|
    ensures CountRows(events)[r].count == HowMany(events, CountRows(events)[r].key) > 0
  {
    hide JoinedKey, KeyOf, CountEvent;
    var row := CountRows(events)[r];
    RowsPartitionEvents(events);
    OnlyRowSums(CountRows(events), r);
    RowIsMentioned(CountRows(events), r);
    CountRowsAdd(events, row.key);
    SumIsHowMany(events, row.key);
  }

  /** And every event has its row. */
  lemma EventHasItsRow(events: seq<HashedEvent>, n: nat)
    requires AllStorable(events) && n < |events|
    ensures exists r :: 0 <= r < |CountRows(events)| && SevenAre(events[n].event, CountRows(events)[r].key)
  {
    hide JoinedKey, CountEvent, CountRows;
    var k := KeyOf(events[n]);
    assert EventBumps(events)[n].key == k;
    CountRowsAdd(events, k);
    var rows := CountRows(events);
    var r :| 0 <= r < |CountBumps(rows)| && CountBumps(rows)[r].key == k;
    assert SevenAre(events[n].event, rows[r].key);
  }

  // ---- Installation rows ------------------------------------------------------

  predicate InstallIs(e: HashedEvent, k: InstallKey) {
    e.hash == Some(k.hash) && k.hash != [] && DayOf(e.event.timestamp) == k.day
  }

  /** What an event adds to a column of its installation's row. */
  predicate CountsIn(c: Column, e: Event) {
    match c
    case Preflights => e.eventName == Ascii("preflight_completed")
    case Attention =>
      e.result == Some(Ascii("REVIEW")) || e.result == Some(Ascii("BLOCK")) || e.result == Some(Ascii("UNKNOWN"))
  }

  function HowManyIn(c: Column, events: seq<HashedEvent>, k: InstallKey): nat {
    if events == [] then 0
    else
      var e := events[|events| - 1];
      HowManyIn(c, events[..|events| - 1], k) + (if InstallIs(e, k) && CountsIn(c, e.event) then 1 else 0)
  }

  ghost predicate SomeInstall(events: seq<HashedEvent>, k: InstallKey) {
    exists n :: 0 <= n < |events| && InstallIs(events[n], k)
  }

  lemma InstallKeyIs(e: HashedEvent, k: InstallKey)
    ensures InstallIs(e, k) <==> HasInstallation(e) && InstallKeyOf(e) == k
  {
  }

  lemma WeightIs(c: Column, e: HashedEvent)
    ensures Weight(c, e) == if CountsIn(c, e.event) then 1 else 0
  {
    assert REVIEW == Ascii("REVIEW") && BLOCK == Ascii("BLOCK") && UNKNOWN == Ascii("UNKNOWN");
    assert PREFLIGHT == Ascii("preflight_completed");
    hide Ascii;
  }

  lemma {:induction false} SumIsHowManyIn(c: Column, events: seq<HashedEvent>, k: InstallKey)
    ensures Sum(InstallEventBumps(c, events), k) == HowManyIn(c, events, k)
    ensures Mentions(InstallEventBumps(c, events), k) <==> SomeInstall(events, k)
    decreases |events|
  {
    hide Weight, CountsIn, InstallIs, HasInstallation, InstallKeyOf;
    if events != [] {
      var prefix, e := events[..|events| - 1], events[|events| - 1];
      SumIsHowManyIn(c, prefix, k);
      InstallKeyIs(e, k);
      WeightIs(c, e);
      SomeInstallStep(events, k);
      if HasInstallation(e) {
        SumAppend(InstallEventBumps(c, prefix), Bump(InstallKeyOf(e), Weight(c, e)), k);
      } else {
        assert InstallEventBumps(c, prefix) + [] == InstallEventBumps(c, prefix);
      }
    }
  }

  lemma SomeInstallStep(events: seq<HashedEvent>, k: InstallKey)
    requires events != []
    ensures SomeInstall(events, k) <==>
            SomeInstall(events[..|events| - 1], k) || InstallIs(events[|events| - 1], k)
  {
    hide InstallIs;
    var prefix := events[..|events| - 1];
    if n :| 0 <= n < |prefix| && InstallIs(prefix[n], k) { assert InstallIs(events[n], k); }
    if n :| 0 <= n < |events| - 1 && InstallIs(events[n], k) { assert InstallIs(prefix[n], k); }
  }

  // ---- The transaction --------------------------------------------------------

  /**
   One committed request: its ledger row, and in each table every key's figure grown by
   the request's own events of that key. Nothing else appears.
   */
  lemma TransactionGrows(db: Db, r: Request, day: Text, k: CountKey, i: InstallKey)
    requires AllStorable(r.events) && Transaction(db, r, day).Some?
    ensures var next := Transaction(db, r, day).value;
            && r.id !in db.ledger && next.ledger == db.ledger[r.id := day]
            && Get(next.counts, k) == Get(db.counts, k) + HowMany(r.events, k)
            && (k in next.counts <==> k in db.counts || HowMany(r.events, k) > 0)
            && Get(next.preflights, i) == Get(db.preflights, i) + HowManyIn(Preflights, r.events, i)
            && Get(next.attention, i) == Get(db.attention, i) + HowManyIn(Attention, r.events, i)
            && (i in next.preflights <==> i in db.preflights || SomeInstall(r.events, i))
            && (i in next.attention <==> i in db.attention || SomeInstall(r.events, i))
  {
    hide CountRows, InstallRows, Get, AddAll, HowMany, HowManyIn, SomeInstall;
    CountTable(db.counts, r.events, k);
    InstallTable(Preflights, db.preflights, r.events, i);
    InstallTable(Attention, db.attention, r.events, i);
  }

  lemma CountTable(t: map<CountKey, nat>, events: seq<HashedEvent>, k: CountKey)
    requires AllStorable(events)
    ensures var next := AddAll(t, CountBumps(CountRows(events)));
            Get(next, k) == Get(t, k) + HowMany(events, k) && (k in next <==> k in t || HowMany(events, k) > 0)
  {
    hide *;
    AddAllGet(t, CountBumps(CountRows(events)), k);
    CountRowsAdd(events, k);
    SumIsHowMany(events, k);
  }

  lemma InstallTable(c: Column, t: map<InstallKey, nat>, events: seq<HashedEvent>, k: InstallKey)
    requires AllStorable(events)
    ensures var next := AddAll(t, InstallBumps(c, InstallRows(events)));
            Get(next, k) == Get(t, k) + HowManyIn(c, events, k) && (k in next <==> k in t || SomeInstall(events, k))
  {
    hide *;
    AddAllGet(t, InstallBumps(c, InstallRows(events)), k);
    InstallRowsAdd(c, events, k);
    SumIsHowManyIn(c, events, k);
  }

  // ---- Raw ids stay out -------------------------------------------------------

  /** The event as hashed, with its raw id erased. */
  function Erased(e: HashedEvent): HashedEvent {
    e.(event := e.event.(installationId := None))
  }

  function ErasedAll(events: seq<HashedEvent>): seq<HashedEvent> {
    seq(|events|, n requires 0 <= n < |events| => Erased(events[n]))
  }

  /** An event's hash is the one of its own id, and none without an id. */
  lemma HashIsOfOwnId(e: Event, hash: Text -> Text)
    ensures HashEvent(e, hash).event == e
    ensures HashEvent(e, hash).hash ==
            match e.installationId
            case None => None
            case Some(id) => if id == [] then None else Some(hash(id))
  {
  }

  /** No table can tell which raw ids the hashes were of. */
  lemma RawIdsLeaveNoTrace(db: Db, r: Request, day: Text)
    ensures Transaction(db, Request(r.id, ErasedAll(r.events)), day) == Transaction(db, r, day)
  {
    hide CountRows, InstallRows;
    ErasedRows(r.events);
  }

  lemma {:induction false} ErasedRows(events: seq<HashedEvent>)
    ensures CountRows(ErasedAll(events)) == CountRows(events)
    ensures InstallRows(ErasedAll(events)) == InstallRows(events)
    decreases |events|
  {
    hide CountEvent, InstallEvent, Erased;
    if events != [] {
      var prefix, e := events[..|events| - 1], events[|events| - 1];
      var erased := ErasedAll(events);
      assert erased[..|erased| - 1] == ErasedAll(prefix) && erased[|erased| - 1] == Erased(e);
      ErasedRows(prefix);
      ErasedEvent(CountRows(prefix), InstallRows(prefix), e);
    } else {
      assert ErasedAll(events) == events;
    }
  }

  lemma ErasedEvent(rows: seq<CountRow>, installs: seq<InstallRow>, e: HashedEvent)
    ensures CountEvent(rows, Erased(e)) == CountEvent(rows, e)
    ensures InstallEvent(installs, Erased(e)) == InstallEvent(installs, e)
  {
    hide DayOf, JoinedKey, JoinedInstallKey;
    assert KeyOf(Erased(e)) == KeyOf(e);
  }
}

/**
 The delivery machine against the worker's tables: an arrival is the ingress
 transaction, pruning is the retention job, and what the machine counts is what the
 report sums.

 Whatever reads a stored event back is a parameter, and so is the batch digest.
 */
module DeliveryTables {
  import opened Texts
  import opened Calendar
  import opened Tallies
  import opened Validate
  import opened Aggregate
  import opened Report
  import D = Delivery
  import Ingress
  import Retention

  /** The batch id of some events, and an event as the worker validates and hashes it. */
  datatype Wire = Wire(id: seq<D.Event> -> Text, read: D.Event -> HashedEvent)

  ghost predicate Injective(x: Wire) {
    forall a, b :: x.id(a) == x.id(b) ==> a == b
  }

  function Reads(x: Wire, events: seq<D.Event>): seq<HashedEvent> {
    seq(|events|, k requires 0 <= k < |events| => x.read(events[k]))
  }

  /** Every event pushed is one the worker accepts. */
  ghost predicate Accepted(x: Wire, w: D.World) {
    forall k :: 0 <= k < |w.pushed| ==> Storable(x.read(w.pushed[k]).event)
  }

  function RequestOf(x: Wire, w: D.World, m: D.Range): Ingress.Request
    requires m.from <= m.to <= |w.pushed|
  {
    Ingress.Request(x.id(D.Content(w, m)), Reads(x, D.Content(w, m)))
  }

  predicate InBounds(w: D.World, ms: seq<D.Range>) {
    forall i :: 0 <= i < |ms| ==> ms[i].from <= ms[i].to <= |w.pushed|
  }

  function CountedEvents(x: Wire, w: D.World, ms: seq<D.Range>): seq<HashedEvent>
    requires InBounds(w, ms)
    decreases |ms|
  {
    if ms == [] then []
    else CountedEvents(x, w, ms[..|ms| - 1]) + Reads(x, D.Content(w, ms[|ms| - 1]))
  }

  /** The ledger rows are those of the machine's ledger, each under the day it was written. */
  ghost predicate SameLedger(x: Wire, w: D.World, db: Ingress.Db) {
    && (forall c :: c in w.ledger ==>
          x.id(c) in db.ledger && FourDigitYear(w.ledger[c]) && db.ledger[x.id(c)] == IsoDay(w.ledger[c]))
    && (forall t :: t in db.ledger ==> exists c :: c in w.ledger && x.id(c) == t)
  }

  /** The tables hold what the machine counted. */
  ghost predicate Tables(x: Wire, w: D.World, db: Ingress.Db) {
    && InBounds(w, w.counted) && SameLedger(x, w, db)
    && db.counts == AddAll(map[], EventBumps(CountedEvents(x, w, w.counted)))
  }

  // ---- Steps ----------------------------------------------------------------

  lemma {:induction false} SameContents(x: Wire, w: D.World, v: D.World, ms: seq<D.Range>)
    requires InBounds(w, ms) && w.pushed <= v.pushed
    ensures InBounds(v, ms) && CountedEvents(x, v, ms) == CountedEvents(x, w, ms)
    decreases |ms|
  {
    if ms != [] {
      SameContents(x, w, v, ms[..|ms| - 1]);
      assert D.Content(v, ms[|ms| - 1]) == D.Content(w, ms[|ms| - 1]);
    }
  }

  lemma CountedAppend(x: Wire, w: D.World, ms: seq<D.Range>, m: D.Range)
    requires InBounds(w, ms) && m.from <= m.to <= |w.pushed|
    ensures InBounds(w, ms + [m])
    ensures CountedEvents(x, w, ms + [m]) == CountedEvents(x, w, ms) + Reads(x, D.Content(w, m))
  {
    assert (ms + [m])[..|ms|] == ms;
  }

  lemma ContentIsStorable(x: Wire, w: D.World, m: D.Range)
    requires Accepted(x, w) && m.from <= m.to <= |w.pushed|
    ensures AllStorable(Reads(x, D.Content(w, m)))
  {
    hide Storable;
  }

  /** The counters after one more request. */
  lemma CountersGrow(before: seq<HashedEvent>, more: seq<HashedEvent>)
    requires AllStorable(more)
    ensures AddAll(AddAll(map[], EventBumps(before)), CountBumps(CountRows(more))) ==
            AddAll(map[], EventBumps(before + more))
  {
    hide *;
    RowsCountEvents(AddAll(map[], EventBumps(before)), more);
    EventBumpsConcat(before, more);
    AddAllConcat(map[], EventBumps(before), EventBumps(more));
  }

  lemma HeldIff(x: Wire, w: D.World, db: Ingress.Db, c: seq<D.Event>)
    requires Injective(x) && SameLedger(x, w, db)
    ensures x.id(c) in db.ledger <==> c in w.ledger
  {
  }

  lemma LedgerGrows(x: Wire, w: D.World, v: D.World, db: Ingress.Db, db': Ingress.Db, c: seq<D.Event>)
    requires Injective(x) && SameLedger(x, w, db) && FourDigitYear(w.today) && c !in w.ledger
    requires v.ledger == w.ledger[c := w.today] && db'.ledger == db.ledger[x.id(c) := IsoDay(w.today)]
    ensures SameLedger(x, v, db')
  {
    hide IsoDay, FourDigitYear;
    forall t | t in db'.ledger ensures exists d :: d in v.ledger && x.id(d) == t {
      if t == x.id(c) {
        assert c in v.ledger;
      } else {
        var d :| d in w.ledger && x.id(d) == t;
        assert d in v.ledger;
      }
    }
  }

  /** An arriving batch is one ingress transaction: aborted by a row of its id, or counted with a new row. */
  lemma ArriveIsTransaction(x: Wire, w: D.World, db: Ingress.Db, m: D.Range)
    requires D.Shaped(w) && m in w.sent && FourDigitYear(w.today)
    requires Injective(x) && Accepted(x, w) && Tables(x, w, db)
    ensures var t := Ingress.Transaction(db, RequestOf(x, w, m), IsoDay(w.today));
            (t.None? <==> D.Content(w, m) in w.ledger) &&
            Tables(x, D.Do(w, D.Arrive(m)), if t.None? then db else t.value)
  {
    hide Injective, Accepted, SameLedger, IsoDay, FourDigitYear, CountRows, InstallRows, CountedEvents, Reads;
    var c, v := D.Content(w, m), D.Do(w, D.Arrive(m));
    HeldIff(x, w, db, c);
    SameContents(x, w, v, w.counted);
    if c in w.ledger {
      D.ReplayOnlyAnswers(w, m);
      LedgerStays(x, w, v, db);
    } else {
      D.CountingRecords(w, m);
      ContentIsStorable(x, w, m);
      CountersGrow(CountedEvents(x, w, w.counted), Reads(x, c));
      CountedAppend(x, v, w.counted, m);
      LedgerGrows(x, w, v, db, Ingress.Transaction(db, RequestOf(x, w, m), IsoDay(w.today)).value, c);
    }
  }

  lemma LedgerStays(x: Wire, w: D.World, v: D.World, db: Ingress.Db)
    requires SameLedger(x, w, db) && v.ledger == w.ledger
    ensures SameLedger(x, v, db)
  {
  }

  /** The retention job, at any instant of the day, forgets the rows the machine prunes and no counter. */
  lemma PruneIsRetention(x: Wire, w: D.World, db: Ingress.Db, now: int)
    requires D.Shaped(w) && Retention.Printable(now) && DayOfInstant(now) == w.today
    requires Injective(x) && Tables(x, w, db)
    ensures Tables(x, D.Do(w, D.Prune), Retention.Retain(db, now))
  {
    hide Injective, SameLedger, CountedEvents, Retention.Printable, DayOfInstant;
    var v := D.Do(w, D.Prune);
    SameContents(x, w, v, w.counted);
    RetainKeepsCounts(db, now);
    LedgerPruned(x, w, v, db, now);
  }

  lemma RetainKeepsCounts(db: Ingress.Db, now: int)
    ensures Retention.Retain(db, now).counts == db.counts
    ensures Retention.Retain(db, now).ledger.Keys <= db.ledger.Keys
    ensures forall t :: t in Retention.Retain(db, now).ledger ==> Retention.Retain(db, now).ledger[t] == db.ledger[t]
  {
    hide Less, Retention.CutoffDay;
  }

  lemma LedgerPruned(x: Wire, w: D.World, v: D.World, db: Ingress.Db, now: int)
    requires Injective(x) && SameLedger(x, w, db) && Retention.Printable(now) && DayOfInstant(now) == w.today
    requires v.ledger == map id | id in w.ledger && w.ledger[id] >= w.today - D.LEDGER_DAYS :: w.ledger[id]
    ensures SameLedger(x, v, Retention.Retain(db, now))
  {
    hide IsoDay, FourDigitYear, Retention.Retain, Retention.Printable, DayOfInstant;
    var kept := Retention.Retain(db, now);
    RetainKeepsCounts(db, now);
    forall c | c in w.ledger ensures x.id(c) in kept.ledger <==> c in v.ledger {
      Retention.RetentionKeepsRecentDays(db, now, w.ledger[c], InstallKey([], []), x.id(c));
    }
    forall t | t in kept.ledger ensures exists c :: c in v.ledger && x.id(c) == t {
      assert t in db.ledger.Keys;
      var c :| c in w.ledger && x.id(c) == t;
      assert c in v.ledger;
    }
  }

  /** No other step touches the worker's tables. */
  lemma ClientStepsLeaveTables(x: Wire, w: D.World, db: Ingress.Db, s: D.Step)
    requires D.Shaped(w) && D.Enabled(w, s) && !s.Arrive? && !s.Prune? && Tables(x, w, db)
    ensures Tables(x, D.Do(w, s), db)
  {
    hide SameLedger, CountedEvents, D.Dropped, D.Positions;
    var v := D.Do(w, s);
    SameContents(x, w, v, w.counted);
    LedgerStays(x, w, v, db);
  }

  // ---- Runs -----------------------------------------------------------------

  function Midnight(w: D.World): int {
    w.today * MS_PER_DAY
  }

  lemma MidnightIsToday(w: D.World)
    ensures DayOfInstant(Midnight(w)) == w.today
  {
  }

  /** The worker's part of a step. */
  ghost function Served(x: Wire, w: D.World, s: D.Step, db: Ingress.Db): Ingress.Db
    requires D.Shaped(w) && D.Enabled(w, s) && FourDigitYear(w.today) && Retention.Printable(Midnight(w))
  {
    match s
    case Arrive(m) =>
      var t := Ingress.Transaction(db, RequestOf(x, w, m), IsoDay(w.today));
      if t.None? then db else t.value
    case Prune => Retention.Retain(db, Midnight(w))
    case _ => db
  }

  /** The clock prints four-digit years throughout. */
  ghost predicate Clocked(w: D.World, steps: seq<D.Step>, waived: set<D.Premise>)
    requires D.Shaped(w) && D.AllowedRun(w, steps, waived)
    decreases |steps|
  {
    FourDigitYear(w.today) && Retention.Printable(Midnight(w)) &&
    (steps != [] ==> Clocked(D.Do(w, steps[0]), steps[1..], waived))
  }

  ghost function ServedAll(x: Wire, w: D.World, steps: seq<D.Step>, waived: set<D.Premise>, db: Ingress.Db): Ingress.Db
    requires D.Shaped(w) && D.AllowedRun(w, steps, waived) && Clocked(w, steps, waived)
    decreases |steps|
  {
    if steps == [] then db
    else ServedAll(x, D.Do(w, steps[0]), steps[1..], waived, Served(x, w, steps[0], db))
  }

  lemma StepServes(x: Wire, w: D.World, s: D.Step, db: Ingress.Db)
    requires D.Shaped(w) && D.Enabled(w, s) && FourDigitYear(w.today) && Retention.Printable(Midnight(w))
    requires Injective(x) && Accepted(x, w) && Tables(x, w, db)
    ensures Tables(x, D.Do(w, s), Served(x, w, s, db))
  {
    hide Injective, Accepted, Tables, D.Do, D.Enabled, FourDigitYear, Retention.Printable, Midnight, DayOfInstant;
    match s
    case Arrive(m) =>
      ArrivesFromSent(w, m);
      ArriveIsTransaction(x, w, db, m);
    case Prune =>
      MidnightIsToday(w);
      PruneIsRetention(x, w, db, Midnight(w));
    case _ => ClientStepsLeaveTables(x, w, db, s);
  }

  lemma ArrivesFromSent(w: D.World, m: D.Range)
    requires D.Shaped(w) && D.Enabled(w, D.Arrive(m))
    ensures m in w.sent
  {
  }

  lemma {:induction false} PushedIsPrefix(w: D.World, steps: seq<D.Step>, waived: set<D.Premise>)
    requires D.Shaped(w) && D.AllowedRun(w, steps, waived)
    ensures w.pushed <= D.Run(w, steps, waived).pushed
    decreases |steps|
  {
    hide D.Dropped, D.Positions;
    if steps != [] { PushedIsPrefix(D.Do(w, steps[0]), steps[1..], waived); }
  }

  /** In every run, whichever premises fail, the tables hold what the machine counted. */
  lemma {:induction false} RunFillsTables(x: Wire, w: D.World, steps: seq<D.Step>, waived: set<D.Premise>,
                                          db: Ingress.Db)
    requires D.Shaped(w) && D.AllowedRun(w, steps, waived) && Clocked(w, steps, waived)
    requires Injective(x) && Accepted(x, D.Run(w, steps, waived)) && Tables(x, w, db)
    ensures Tables(x, D.Run(w, steps, waived), ServedAll(x, w, steps, waived, db))
    decreases |steps|
  {
    if steps != [] {
      hide Injective, Tables, D.Do, Storable, Served, FourDigitYear, Retention.Printable;
      PushedIsPrefix(w, steps, waived);
      assert Accepted(x, w);
      StepServes(x, w, steps[0], db);
      RunFillsTables(x, D.Do(w, steps[0]), steps[1..], waived, Served(x, w, steps[0], db));
    }
  }

  // ---- Counting by position ---------------------------------------------------

  predicate Selected(x: Wire, e: D.Event, p: DayName -> bool) {
    p(GroupKey(KeyOf(x.read(e))))
  }

  /** Over the first `n` positions, the selected events as often as each was counted. */
  function Weighted(x: Wire, w: D.World, ms: seq<D.Range>, n: nat, p: DayName -> bool): nat
    requires n <= |w.pushed|
  {
    if n == 0 then 0
    else Weighted(x, w, ms, n - 1, p) + (if Selected(x, w.pushed[n - 1], p) then D.Times(ms, n - 1) else 0)
  }

  lemma {:induction false} CountWhereConcat(a: seq<HashedEvent>, b: seq<HashedEvent>, p: DayName -> bool)
    ensures CountWhere(a + b, p) == CountWhere(a, p) + CountWhere(b, p)
    decreases |a|
  {
    if a == [] {
      assert a + b == b;
    } else {
      assert (a + b)[1..] == a[1..] + b;
      CountWhereConcat(a[1..], b, p);
    }
  }

  lemma CountWhereOne(x: Wire, e: D.Event, p: DayName -> bool)
    ensures CountWhere(Reads(x, [e]), p) == if Selected(x, e, p) then 1 else 0
  {
    assert Reads(x, [e])[1..] == [];
  }

  function Up(a: nat, n: nat): nat {
    if a < n then a else n
  }

  /** One more batch adds its selected events, each at its own position. */
  lemma {:induction false} WeightedAppend(x: Wire, w: D.World, ms: seq<D.Range>, m: D.Range, n: nat, p: DayName -> bool)
    requires n <= |w.pushed| && m.from <= m.to
    ensures Weighted(x, w, ms + [m], n, p) ==
            Weighted(x, w, ms, n, p) + CountWhere(Reads(x, w.pushed[Up(m.from, n)..Up(m.to, n)]), p)
    decreases n
  {
    hide CountWhere, D.Times, Selected;
    if n == 0 {
      NothingCounted(x, p);
      assert w.pushed[Up(m.from, n)..Up(m.to, n)] == [];
    } else {
      WeightedAppend(x, w, ms, m, n - 1, p);
      D.TimesAppend(ms, m, n - 1);
      var before, now := w.pushed[Up(m.from, n - 1)..Up(m.to, n - 1)], w.pushed[Up(m.from, n)..Up(m.to, n)];
      if D.Covers(m, n - 1) {
        assert now == before + [w.pushed[n - 1]];
        ReadsConcat(x, before, [w.pushed[n - 1]]);
        CountWhereConcat(Reads(x, before), Reads(x, [w.pushed[n - 1]]), p);
        CountWhereOne(x, w.pushed[n - 1], p);
      } else {
        assert now == before;
      }
    }
  }

  lemma NothingCounted(x: Wire, p: DayName -> bool)
    ensures CountWhere(Reads(x, []), p) == 0
  {
  }

  lemma ReadsConcat(x: Wire, a: seq<D.Event>, b: seq<D.Event>)
    ensures Reads(x, a + b) == Reads(x, a) + Reads(x, b)
  {
  }

  lemma {:induction false} WeightedNone(x: Wire, w: D.World, n: nat, p: DayName -> bool)
    requires n <= |w.pushed|
    ensures Weighted(x, w, [], n, p) == 0
    decreases n
  {
    if n > 0 { WeightedNone(x, w, n - 1, p); }
  }

  lemma {:induction false} CountedByPosition(x: Wire, w: D.World, ms: seq<D.Range>, p: DayName -> bool)
    requires InBounds(w, ms)
    ensures CountWhere(CountedEvents(x, w, ms), p) == Weighted(x, w, ms, |w.pushed|, p)
    decreases |ms|
  {
    hide CountWhere, Weighted, Reads;
    if ms == [] {
      WeightedNone(x, w, |w.pushed|, p);
      NoneCounted(p);
    } else {
      var front, last := ms[..|ms| - 1], ms[|ms| - 1];
      CountedByPosition(x, w, front, p);
      CountWhereConcat(CountedEvents(x, w, front), Reads(x, D.Content(w, last)), p);
      WeightedAppend(x, w, front, last, |w.pushed|, p);
      assert ms == front + [last];
    }
  }

  lemma NoneCounted(p: DayName -> bool)
    ensures CountWhere([], p) == 0
  {
  }

  lemma {:induction false} EachOnceIsAll(x: Wire, w: D.World, ms: seq<D.Range>, n: nat, p: DayName -> bool)
    requires n <= |w.pushed| && forall k :: 0 <= k < n ==> D.Times(ms, k) == 1
    ensures Weighted(x, w, ms, n, p) == CountWhere(Reads(x, w.pushed[..n]), p)
    decreases n
  {
    hide CountWhere, D.Times, Selected;
    if n == 0 {
      NothingCounted(x, p);
      assert w.pushed[..0] == [];
    } else {
      EachOnceIsAll(x, w, ms, n - 1, p);
      assert w.pushed[..n] == w.pushed[..n - 1] + [w.pushed[n - 1]];
      ReadsConcat(x, w.pushed[..n - 1], [w.pushed[n - 1]]);
      CountWhereConcat(Reads(x, w.pushed[..n - 1]), Reads(x, [w.pushed[n - 1]]), p);
      CountWhereOne(x, w.pushed[n - 1], p);
    }
  }

  /** For every selection, the report's sum is the selected pushed events, each as often as it was counted. */
  lemma ReportSumsPositions(x: Wire, w: D.World, db: Ingress.Db, rows: seq<Bump<CountKey>>, groups: seq<Bump<DayName>>,
                            p: DayName -> bool)
    requires Tables(x, w, db) && Lists(rows, db.counts) && Lists(groups, Grouped(rows))
    ensures SumWhere(groups, p) == Weighted(x, w, w.counted, |w.pushed|, p)
  {
    hide Lists, Grouped, SumWhere, CountWhere, CountedEvents, Weighted, SameLedger, EventBumps, AddAll;
    ReportSumsTable(CountedEvents(x, w, w.counted), rows, groups, p);
    CountedByPosition(x, w, w.counted, p);
  }

  lemma StartIsEmpty(x: Wire)
    ensures D.Shaped(D.Start()) && Tables(x, D.Start(), EMPTY)
  {
    assert EventBumps([]) == [];
  }

  /**
   End to end. After any run within the premises that left nothing queued and trimmed
   nothing, the report's cumulative preflights are the preflight events ever pushed.
   */
  lemma ReportCountsWhatWasPushed(x: Wire, steps: seq<D.Step>, rows: seq<Bump<CountKey>>, groups: seq<Bump<DayName>>)
    requires D.Shaped(D.Start()) && D.AllowedRun(D.Start(), steps, {}) && Clocked(D.Start(), steps, {})
    requires Injective(x) && Accepted(x, D.Run(D.Start(), steps, {}))
    requires var w := D.Run(D.Start(), steps, {}); w.front == |w.pushed| && w.trimmed == {}
    requires Lists(rows, ServedAll(x, D.Start(), steps, {}, EMPTY).counts) && Lists(groups, Grouped(rows))
    ensures SumWhere(groups, PreflightRow) ==
            CountWhere(Reads(x, D.Run(D.Start(), steps, {}).pushed), PreflightRow)
  {
    hide D.AllowedRun, D.Run, Clocked, ServedAll, Injective, Accepted, Tables, Lists, Grouped, SumWhere, CountWhere,
      Weighted, Reads, PreflightRow;
    var w := D.Run(D.Start(), steps, {});
    StartIsEmpty(x);
    RunFillsTables(x, D.Start(), steps, {}, EMPTY);
    ReportSumsPositions(x, w, ServedAll(x, D.Start(), steps, {}, EMPTY), rows, groups, PreflightRow);
    D.EachEventCountsOnce(steps);
    AllOnce(w);
    EachOnceIsAll(x, w, w.counted, |w.pushed|, PreflightRow);
    assert w.pushed[..|w.pushed|] == w.pushed;
  }

  lemma AllOnce(w: D.World)
    requires D.ExactlyOnce(w) && w.front == |w.pushed| && w.trimmed == {}
    ensures forall k :: 0 <= k < |w.pushed| ==> D.Times(w.counted, k) == 1
  {
    hide D.Times;
    forall k: nat | k < |w.pushed| ensures D.Times(w.counted, k) == 1 { assert D.CountedRight(w, k); }
  }
}

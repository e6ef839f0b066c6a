/**
 The ingress of apps/usage-worker/src/index.ts: one request at a time as the handler
 runs it, and any number of requests racing through its two database steps.

 The transaction is atomic and aborts on an existing `batch_id` (its primary key).
 The HMAC is a parameter.
 */
module Ingress {
  import opened Texts
  import opened Tallies
  import opened Validate
  import opened Aggregate

  /** The three tables; an installation row is kept as its two columns. */
  datatype Db = Db(
    ledger: map<Text, Text>,
    counts: map<CountKey, nat>,
    preflights: map<InstallKey, nat>,
    attention: map<InstallKey, nat>)

  datatype Request = Request(id: Text, events: seq<HashedEvent>)

  /** The transaction: ledger row, counter upserts, installation upserts, or nothing at all. */
  function Transaction(db: Db, r: Request, day: Text): Option<Db> {
    if r.id in db.ledger then None
    else
      var counts, installs := CountRows(r.events), InstallRows(r.events);
      Some(Db(db.ledger[r.id := day],
              AddAll(db.counts, CountBumps(counts)),
              AddAll(db.preflights, InstallBumps(Preflights, installs)),
              AddAll(db.attention, InstallBumps(Attention, installs))))
  }

  function HashEvent(e: Event, hash: Text -> Text): HashedEvent {
    var id := e.installationId;
    HashedEvent(e, if id.Some? && id.value != [] then Some(hash(id.value)) else None)
  }

  // ---- One request ----------------------------------------------------------

  class Worker {
    var db: Db

    constructor ()
      ensures db == Db(map[], map[], map[], map[])
    {
      db := Db(map[], map[], map[], map[]);
    }

    /** Each distinct raw id is hashed once. */
    method HashInstallations(events: seq<Event>, hash: Text -> Text) returns (hashed: seq<HashedEvent>)
      ensures |hashed| == |events|
      ensures forall k :: 0 <= k < |events| ==> hashed[k] == HashEvent(events[k], hash)
    {
      var hashes: map<Text, Text> := map[];
      for n := 0 to |events|
        invariant forall t :: t in hashes ==> hashes[t] == hash(t)
        invariant forall k :: 0 <= k < n && events[k].installationId.Some? && events[k].installationId.value != []
                    ==> events[k].installationId.value in hashes
      {
        var raw := events[n].installationId;
        if raw.Some? && raw.value != [] && raw.value !in hashes {
          hashes := hashes[raw.value := hash(raw.value)];
        }
      }
      hashed := seq(|events|, k requires 0 <= k < |events| =>
        var raw := events[k].installationId;
        HashedEvent(events[k], if raw.Some? && raw.value != [] then Some(hashes[raw.value]) else None));
    }

    method ApplyTransaction(r: Request, day: Text)
      requires r.id !in db.ledger
      modifies this
      ensures Some(db) == Transaction(old(db), r, day)
    {
      var counts, installs := Fold(r.events);
      db := Db(db.ledger[r.id := day],
               AddAll(db.counts, CountBumps(counts)),
               AddAll(db.preflights, InstallBumps(Preflights, installs)),
               AddAll(db.attention, InstallBumps(Attention, installs)));
    }

    /**
     The handler with no other request in between. `storeFails` is a database error
     in the transaction. A 2xx means that the batch is in the ledger; any other
     answer, and every replay, leaves the tables alone.
     */
    method HandleUsagePost(body: Body, dateParse: Text -> Option<int>, hash: Text -> Text, day: Text, storeFails: bool)
      returns (status: int, ghost result: Result<Batch, Code>)
      modifies this
      ensures OutcomeByFields(body, dateParse, result) && ValidationOutcome(body, dateParse, result)
      ensures status == 204 || status == 400 || status == 500
      ensures status == 400 <==> result.Err?
      ensures status == 204 ==> result.value.id in db.ledger
      ensures status != 204 ==> db == old(db)
      ensures result.Ok? && result.value.id in old(db).ledger ==> status == 204 && db == old(db)
      ensures result.Ok? && result.value.id !in old(db).ledger && storeFails ==> status == 500
      ensures result.Ok? && result.value.id !in old(db).ledger && !storeFails ==>
                status == 204 &&
                exists r: Request :: r.id == result.value.id && |r.events| == |result.value.events|
                  && (forall k :: 0 <= k < |r.events| ==> r.events[k] == HashEvent(result.value.events[k], hash))
                  && Some(db) == Transaction(old(db), r, day)
    {
      var outcome := ValidateBatch(body, dateParse);
      result := outcome;
      if outcome.Err? { return 400, result; }
      var batch := outcome.value;
      if batch.id in db.ledger { return 204, result; }
      var hashed := HashInstallations(batch.events, hash);
      if storeFails { return 500, result; }
      var r := Request(batch.id, hashed);
      ApplyTransaction(r, day);
      status := 204;
    }
  }

  /** What `StorableRequests` asks of a request, validation guarantees. */
  lemma AcceptedRequestIsStorable(body: Body, dateParse: Text -> Option<int>, hash: Text -> Text,
                                  result: Result<Batch, Code>, r: Request)
    requires ValidationOutcome(body, dateParse, result) && result.Ok?
    requires |r.events| == |result.value.events|
    requires forall k :: 0 <= k < |r.events| ==> r.events[k] == HashEvent(result.value.events[k], hash)
    ensures AllStorable(r.events)
    ensures forall k :: 0 <= k < |r.events| ==> r.events[k].event.eventName in ALLOWED_EVENTS
  {
    AcceptedBatchIsStorable(body, dateParse, result);
    hide ValidationOutcome, Storable;
  }

  // ---- Racing requests ------------------------------------------------------

  /** Where a handler stands: before its ledger read, after it, or answered. */
  datatype Phase = Arrived | Unseen | Answered(status: int)

  /** `committed` records the requests whose transaction went through, in order. */
  datatype World = World(db: Db, phases: seq<Phase>, committed: seq<Request>)

  datatype Move = ReadLedger(i: nat) | Commit(i: nat, day: Text, storeFails: bool)

  function Step(requests: seq<Request>, w: World, m: Move): World
    requires |w.phases| == |requests|
  {
    if m.i >= |requests| then w
    else
      var r := requests[m.i];
      match m
      case ReadLedger(i) =>
        if !w.phases[i].Arrived? then w
        else w.(phases := w.phases[i := if r.id in w.db.ledger then Answered(204) else Unseen])
      case Commit(i, day, storeFails) =>
        if !w.phases[i].Unseen? then w
        else
          var t := Transaction(w.db, r, day);
          if storeFails || t.None? then w.(phases := w.phases[i := Answered(500)])
          else World(t.value, w.phases[i := Answered(204)], w.committed + [r])
  }

  function Run(requests: seq<Request>, w: World, moves: seq<Move>): (r: World)
    requires |w.phases| == |requests|
    ensures |r.phases| == |requests|
    decreases |moves|
  {
    if moves == [] then w else Run(requests, Step(requests, w, moves[0]), moves[1..])
  }

  function Begin(db: Db, requests: seq<Request>): World {
    World(db, seq(|requests|, _ => Arrived), [])
  }

  function AllEvents(rs: seq<Request>): seq<HashedEvent> {
    if rs == [] then [] else AllEvents(rs[..|rs| - 1]) + rs[|rs| - 1].events
  }

  ghost predicate StorableRequests(rs: seq<Request>) {
    forall i :: 0 <= i < |rs| ==> AllStorable(rs[i].events)
  }

  /** The tables count the events of `committed`, each request once, on top of `db0`. */
  ghost predicate Counted(db0: Db, w: World) {
    && w.db.counts == AddAll(db0.counts, EventBumps(AllEvents(w.committed)))
    && w.db.preflights == AddAll(db0.preflights, InstallEventBumps(Preflights, AllEvents(w.committed)))
    && w.db.attention == AddAll(db0.attention, InstallEventBumps(Attention, AllEvents(w.committed)))
  }

  ghost function Ids(rs: seq<Request>): set<Text> {
    set i | 0 <= i < |rs| :: rs[i].id
  }

  ghost predicate DistinctIds(rs: seq<Request>) {
    forall i, j :: 0 <= i < j < |rs| ==> rs[i].id != rs[j].id
  }

  /** The new ledger rows are exactly the committed requests, under distinct ids. */
  ghost predicate Ledgered(db0: Db, w: World) {
    && w.db.ledger.Keys == db0.ledger.Keys + Ids(w.committed)
    && db0.ledger.Keys !! Ids(w.committed)
    && DistinctIds(w.committed)
  }

  lemma IdsAppend(rs: seq<Request>, r: Request)
    ensures Ids(rs + [r]) == Ids(rs) + {r.id}
  {
    var more := rs + [r];
    forall id ensures id in Ids(more) <==> id in Ids(rs) + {r.id} {
      if id in Ids(rs) {
        var i :| 0 <= i < |rs| && rs[i].id == id;
        assert more[i].id == id;
      }
      assert more[|rs|] == r;
    }
  }

  lemma IdsRemove(rs: seq<Request>, j: nat)
    requires j < |rs| && DistinctIds(rs)
    ensures var rest := rs[..j] + rs[j + 1..];
            Ids(rest) == Ids(rs) - {rs[j].id} && DistinctIds(rest)
  {
    var rest := rs[..j] + rs[j + 1..];
    forall k | 0 <= k < |rest| ensures rest[k] == rs[if k < j then k else k + 1] {}
    forall id ensures id in Ids(rest) <==> id in Ids(rs) - {rs[j].id} {
      if id in Ids(rs) && id != rs[j].id {
        var i :| 0 <= i < |rs| && rs[i].id == id;
        assert rest[if i < j then i else i - 1] == rs[i];
      }
    }
  }

  lemma AllEventsAppend(rs: seq<Request>, r: Request)
    ensures AllEvents(rs + [r]) == AllEvents(rs) + r.events
  {
    assert (rs + [r])[..|rs|] == rs;
  }

  lemma {:induction false} AllEventsStorable(rs: seq<Request>)
    requires StorableRequests(rs)
    ensures AllStorable(AllEvents(rs))
    decreases |rs|
  {
    if rs != [] {
      AllEventsStorable(rs[..|rs| - 1]);
      StorableConcat(AllEvents(rs[..|rs| - 1]), rs[|rs| - 1].events);
    }
  }

  /** One committed transaction counts its own events, once. */
  lemma TransactionCounts(db0: Db, w: World, r: Request, day: Text)
    requires Counted(db0, w) && AllStorable(r.events) && Transaction(w.db, r, day).Some?
    ensures Counted(db0, World(Transaction(w.db, r, day).value, w.phases, w.committed + [r]))
  {
    var before := AllEvents(w.committed);
    AllEventsAppend(w.committed, r);
    EventBumpsConcat(before, r.events);
    InstallEventBumpsConcat(Preflights, before, r.events);
    InstallEventBumpsConcat(Attention, before, r.events);
    hide CountBumps, CountRows, InstallBumps, InstallRows,
         EventBumps, InstallEventBumps, AllEvents, AllStorable, AddAll;
    RowsCountEvents(w.db.counts, r.events);
    RowsRecordInstallations(Preflights, w.db.preflights, r.events);
    RowsRecordInstallations(Attention, w.db.attention, r.events);
    AddAllConcat(db0.counts, EventBumps(before), EventBumps(r.events));
    AddAllConcat(db0.preflights, InstallEventBumps(Preflights, before), InstallEventBumps(Preflights, r.events));
    AddAllConcat(db0.attention, InstallEventBumps(Attention, before), InstallEventBumps(Attention, r.events));
  }

  /** A request that is not committed by a move leaves every table alone. */
  lemma OnlyCommitsChangeTables(requests: seq<Request>, w: World, m: Move)
    requires |w.phases| == |requests|
    ensures var v := Step(requests, w, m);
            if v.committed == w.committed then v.db == w.db
            else m.Commit? && m.i < |requests| && v.committed == w.committed + [requests[m.i]] &&
                 Some(v.db) == Transaction(w.db, requests[m.i], m.day) && v.phases[m.i] == Answered(204)
  {
    hide CountBumps, CountRows, InstallBumps, InstallRows, AddAll;
  }

  lemma StepKeeps(db0: Db, requests: seq<Request>, w: World, m: Move)
    requires |w.phases| == |requests| && StorableRequests(requests)
    requires Counted(db0, w) && Ledgered(db0, w) && StorableRequests(w.committed)
    ensures var v := Step(requests, w, m); Counted(db0, v) && Ledgered(db0, v) && StorableRequests(v.committed)
  {
    var v := Step(requests, w, m);
    OnlyCommitsChangeTables(requests, w, m);
    if v.committed == w.committed {
      hide Counted, Ledgered, Step, AllStorable;
      SameTables(db0, w, v);
    } else {
      var r := requests[m.i];
      hide Counted, Ledgered, Step, AllStorable;
      TransactionCounts(db0, w, r, m.day);
      LedgerGrows(db0, w, r, m.day);
      SameTables(db0, World(Transaction(w.db, r, m.day).value, w.phases, w.committed + [r]), v);
    }
  }

  lemma SameTables(db0: Db, w: World, v: World)
    requires w.db == v.db && w.committed == v.committed && Counted(db0, w) && Ledgered(db0, w)
    ensures Counted(db0, v) && Ledgered(db0, v)
  {
  }

  lemma LedgerGrows(db0: Db, w: World, r: Request, day: Text)
    requires Ledgered(db0, w) && r.id !in w.db.ledger
    ensures Ledgered(db0, World(Transaction(w.db, r, day).value, w.phases, w.committed + [r]))
  {
    hide CountBumps, CountRows, InstallBumps, InstallRows, AddAll;
    IdsAppend(w.committed, r);
    forall i | 0 <= i < |w.committed| ensures w.committed[i].id != r.id {
      assert w.committed[i].id in Ids(w.committed);
    }
  }

  lemma RunUnfold(requests: seq<Request>, w: World, moves: seq<Move>)
    requires |w.phases| == |requests| && moves != []
    ensures |Step(requests, w, moves[0]).phases| == |requests|
    ensures Run(requests, w, moves) == Run(requests, Step(requests, w, moves[0]), moves[1..])
  {
    hide Transaction;
  }

  lemma {:induction false} RunKeeps(db0: Db, requests: seq<Request>, w: World, moves: seq<Move>)
    requires |w.phases| == |requests| && StorableRequests(requests)
    requires Counted(db0, w) && Ledgered(db0, w) && StorableRequests(w.committed)
    ensures var v := Run(requests, w, moves); Counted(db0, v) && Ledgered(db0, v) && StorableRequests(v.committed)
    decreases |moves|
  {
    if moves != [] {
      hide *;
      RunUnfold(requests, w, moves);
      StepKeeps(db0, requests, w, moves[0]);
      RunKeeps(db0, requests, Step(requests, w, moves[0]), moves[1..]);
    }
  }

  /**
   Whatever the interleaving, and however often a batch is sent: the tables hold what
   they held before plus each committed batch once, and the committed batches are
   exactly the new ledger rows.
   */
  lemma RacingHandlersCountOnce(db0: Db, requests: seq<Request>, moves: seq<Move>)
    requires StorableRequests(requests)
    ensures var w := Run(requests, Begin(db0, requests), moves); Counted(db0, w) && Ledgered(db0, w)
  {
    var w := Begin(db0, requests);
    assert AllEvents(w.committed) == [];
    assert InstallEventBumps(Preflights, []) == [] == InstallEventBumps(Attention, []) && EventBumps([]) == [];
    RunKeeps(db0, requests, w, moves);
  }

  /** The same tables result from handling the committed requests one after another. */
  function Serially(db: Db, rs: seq<Request>, days: seq<Text>): Option<Db>
    requires |days| == |rs|
  {
    if rs == [] then Some(db)
    else
      var before := Serially(db, rs[..|rs| - 1], days[..|rs| - 1]);
      if before.None? then None else Transaction(before.value, rs[|rs| - 1], days[|rs| - 1])
  }

  ghost predicate Serializable(db0: Db, w: World) {
    exists days: seq<Text> :: |days| == |w.committed| && Serially(db0, w.committed, days) == Some(w.db)
  }

  lemma {:induction false} RunIsSerializable(db0: Db, requests: seq<Request>, w: World, moves: seq<Move>)
    requires |w.phases| == |requests| && Serializable(db0, w)
    ensures Serializable(db0, Run(requests, w, moves))
    decreases |moves|
  {
    if moves != [] {
      hide *;
      RunUnfold(requests, w, moves);
      StepIsSerializable(db0, requests, w, moves[0]);
      RunIsSerializable(db0, requests, Step(requests, w, moves[0]), moves[1..]);
    }
  }

  lemma SerialDays(db0: Db, w: World) returns (days: seq<Text>)
    requires Serializable(db0, w)
    ensures |days| == |w.committed| && Serially(db0, w.committed, days) == Some(w.db)
  {
    days :| |days| == |w.committed| && Serially(db0, w.committed, days) == Some(w.db);
  }

  lemma SerializableBy(db0: Db, w: World, days: seq<Text>)
    requires |days| == |w.committed| && Serially(db0, w.committed, days) == Some(w.db)
    ensures Serializable(db0, w)
  {
  }

  lemma SeriallyAppend(db0: Db, rs: seq<Request>, days: seq<Text>, r: Request, day: Text)
    requires |days| == |rs| && Serially(db0, rs, days).Some?
    ensures Serially(db0, rs + [r], days + [day]) == Transaction(Serially(db0, rs, days).value, r, day)
  {
    hide Transaction;
    assert (rs + [r])[..|rs|] == rs && (days + [day])[..|rs|] == days;
  }

  lemma StepIsSerializable(db0: Db, requests: seq<Request>, w: World, m: Move)
    requires |w.phases| == |requests| && Serializable(db0, w)
    ensures Serializable(db0, Step(requests, w, m))
  {
    hide *;
    OnlyCommitsChangeTables(requests, w, m);
    var v := Step(requests, w, m);
    var days := SerialDays(db0, w);
    if v.committed == w.committed {
      SerializableBy(db0, v, days);
    } else {
      SeriallyAppend(db0, w.committed, days, requests[m.i], m.day);
      SerializableBy(db0, v, days + [m.day]);
    }
  }

  /** Every interleaving ends in the tables of some serial run of the committed requests. */
  lemma RacingHandlersSerialize(db0: Db, requests: seq<Request>, moves: seq<Move>)
    ensures Serializable(db0, Run(requests, Begin(db0, requests), moves))
  {
    var none: seq<Text> := [];
    assert Serially(db0, [], none) == Some(db0);
    RunIsSerializable(db0, requests, Begin(db0, requests), moves);
  }

  // ---- Order and duplication ------------------------------------------------

  /** Client ids are digests: one id, one list of events. */
  ghost predicate Honest(rs: seq<Request>, content: Text -> seq<HashedEvent>) {
    forall i :: 0 <= i < |rs| ==> rs[i].events == content(rs[i].id)
  }

  lemma {:induction false} AllEventsSplit(rs: seq<Request>, j: nat)
    requires j < |rs|
    ensures multiset(AllEvents(rs)) == multiset(AllEvents(rs[..j] + rs[j + 1..])) + multiset(rs[j].events)
    decreases |rs|
  {
    var last := |rs| - 1;
    var front := rs[..last];
    assert rs == front + [rs[last]];
    AllEventsAppend(front, rs[last]);
    if j == last {
      assert rs[..j] + rs[j + 1..] == front;
    } else {
      assert front[..j] == rs[..j] && rs[j + 1..] == front[j + 1..] + [rs[last]];
      assert rs[..j] + rs[j + 1..] == (front[..j] + front[j + 1..]) + [rs[last]];
      AllEventsSplit(front, j);
      AllEventsAppend(front[..j] + front[j + 1..], rs[last]);
    }
  }

  lemma {:induction false} SameIdsSameEvents(a: seq<Request>, b: seq<Request>, content: Text -> seq<HashedEvent>)
    requires Honest(a, content) && Honest(b, content) && DistinctIds(a) && DistinctIds(b) && Ids(a) == Ids(b)
    ensures multiset(AllEvents(a)) == multiset(AllEvents(b))
    decreases |a|
  {
    if a == [] {
      if b != [] { SomeId(b); }
    } else {
      var j := RemoveMatching(a, b, content);
      hide *;
      AllEventsSplit(a, 0);
      AllEventsSplit(b, j);
      assert a[..0] + a[1..] == a[1..];
      SameIdsSameEvents(a[1..], b[..j] + b[j + 1..], content);
    }
  }

  lemma SomeId(rs: seq<Request>)
    requires rs != []
    ensures Ids(rs) != {}
  {
    assert rs[0].id in Ids(rs);
  }

  /** Drop the first request and the one of the same id. */
  lemma RemoveMatching(a: seq<Request>, b: seq<Request>, content: Text -> seq<HashedEvent>) returns (j: nat)
    requires a != []
    requires Honest(a, content) && Honest(b, content) && DistinctIds(a) && DistinctIds(b) && Ids(a) == Ids(b)
    ensures j < |b| && b[j].events == a[0].events
    ensures var y := b[..j] + b[j + 1..];
            && Honest(a[1..], content) && Honest(y, content)
            && DistinctIds(a[1..]) && DistinctIds(y) && Ids(a[1..]) == Ids(y)
  {
    assert a[0].id in Ids(a);
    j :| 0 <= j < |b| && b[j].id == a[0].id;
    assert a[..0] + a[1..] == a[1..];
    RestHonest(b, j, content);
    IdsRemove(a, 0);
    IdsRemove(b, j);
  }

  lemma RestHonest(b: seq<Request>, j: nat, content: Text -> seq<HashedEvent>)
    requires j < |b| && Honest(b, content)
    ensures Honest(b[..j] + b[j + 1..], content)
  {
  }

  lemma EventBumpsSplit(events: seq<HashedEvent>, j: nat)
    requires j < |events|
    ensures multiset(EventBumps(events)) ==
            multiset(EventBumps(events[..j] + events[j + 1..])) + multiset{Bump(KeyOf(events[j]), 1)}
  {
    hide KeyOf;
    var bs := EventBumps(events);
    RemoveAt(bs, j);
    assert EventBumps(events[..j] + events[j + 1..]) == bs[..j] + bs[j + 1..];
    assert bs[j] in multiset(bs);
  }

  /** Counting is insensitive to the order of events. */
  lemma {:induction false} EventBumpsPermute(a: seq<HashedEvent>, b: seq<HashedEvent>)
    requires multiset(a) == multiset(b)
    ensures multiset(EventBumps(a)) == multiset(EventBumps(b))
    decreases |a|
  {
    hide *;
    assert |a| == |multiset(a)| == |multiset(b)| == |b|;
    if a != [] {
      var j := Partner(a, b);
      EventBumpsPermute(a[1..], b[..j] + b[j + 1..]);
      assert a[..0] + a[1..] == a[1..];
      EventBumpsSplit(a, 0);
      EventBumpsSplit(b, j);
    }
  }

  lemma {:induction false} InstallBumpsSplit(c: Column, events: seq<HashedEvent>, j: nat)
    requires j < |events|
    ensures multiset(InstallEventBumps(c, events)) ==
            multiset(InstallEventBumps(c, events[..j] + events[j + 1..])) + multiset(InstallEventBumps(c, [events[j]]))
  {
    assert events == events[..j] + ([events[j]] + events[j + 1..]);
    InstallEventBumpsConcat(c, events[..j], [events[j]] + events[j + 1..]);
    InstallEventBumpsConcat(c, [events[j]], events[j + 1..]);
    InstallEventBumpsConcat(c, events[..j], events[j + 1..]);
  }

  lemma {:induction false} InstallBumpsPermute(c: Column, a: seq<HashedEvent>, b: seq<HashedEvent>)
    requires multiset(a) == multiset(b)
    ensures multiset(InstallEventBumps(c, a)) == multiset(InstallEventBumps(c, b))
    decreases |a|
  {
    hide *;
    assert |a| == |multiset(a)| == |multiset(b)| == |b|;
    if a != [] {
      var j := Partner(a, b);
      InstallBumpsPermute(c, a[1..], b[..j] + b[j + 1..]);
      assert a[..0] + a[1..] == a[1..];
      InstallBumpsSplit(c, a, 0);
      InstallBumpsSplit(c, b, j);
    }
  }

  /**
   With honest ids the ledger alone decides the tables: any two runs, with any
   interleaving, order and duplication of requests, that end with the same ledgered
   ids end with the same counters.
   */
  lemma LedgerDecidesCounters(db0: Db, ra: seq<Request>, ma: seq<Move>, rb: seq<Request>, mb: seq<Move>,
                              content: Text -> seq<HashedEvent>)
    requires StorableRequests(ra) && StorableRequests(rb)
    requires Honest(ra, content) && Honest(rb, content)
    requires Run(ra, Begin(db0, ra), ma).db.ledger.Keys == Run(rb, Begin(db0, rb), mb).db.ledger.Keys
    ensures var a, b := Run(ra, Begin(db0, ra), ma).db, Run(rb, Begin(db0, rb), mb).db;
            a.counts == b.counts && a.preflights == b.preflights && a.attention == b.attention
  {
    hide *;
    BeginsHonest(db0, ra, content);
    BeginsHonest(db0, rb, content);
    var v, w := Run(ra, Begin(db0, ra), ma), Run(rb, Begin(db0, rb), mb);
    RunStaysHonest(ra, Begin(db0, ra), ma, content);
    RunStaysHonest(rb, Begin(db0, rb), mb, content);
    RacingHandlersCountOnce(db0, ra, ma);
    RacingHandlersCountOnce(db0, rb, mb);
    LedgersShareIds(db0, v, w);
    SameIdsSameEvents(v.committed, w.committed, content);
    SameEventsSameTables(db0, v, w);
  }

  lemma SameEventsSameTables(db0: Db, v: World, w: World)
    requires Counted(db0, v) && Counted(db0, w)
    requires multiset(AllEvents(v.committed)) == multiset(AllEvents(w.committed))
    ensures v.db.counts == w.db.counts && v.db.preflights == w.db.preflights && v.db.attention == w.db.attention
  {
    hide AllEvents, EventBumps, InstallEventBumps, AddAll;
    var a, b := AllEvents(v.committed), AllEvents(w.committed);
    EventBumpsPermute(a, b);
    InstallBumpsPermute(Preflights, a, b);
    InstallBumpsPermute(Attention, a, b);
    AddAllPermutes(db0.counts, EventBumps(a), EventBumps(b));
    AddAllPermutes(db0.preflights, InstallEventBumps(Preflights, a), InstallEventBumps(Preflights, b));
    AddAllPermutes(db0.attention, InstallEventBumps(Attention, a), InstallEventBumps(Attention, b));
  }

  lemma LedgersShareIds(db0: Db, v: World, w: World)
    requires Ledgered(db0, v) && Ledgered(db0, w) && v.db.ledger.Keys == w.db.ledger.Keys
    ensures DistinctIds(v.committed) && DistinctIds(w.committed) && Ids(v.committed) == Ids(w.committed)
  {
    hide Ids;
  }

  lemma BeginsHonest(db0: Db, rs: seq<Request>, content: Text -> seq<HashedEvent>)
    ensures |Begin(db0, rs).phases| == |rs| && Honest(Begin(db0, rs).committed, content)
  {
  }

  lemma {:induction false} RunStaysHonest(rs: seq<Request>, w: World, moves: seq<Move>,
                                          content: Text -> seq<HashedEvent>)
    requires |w.phases| == |rs| && Honest(rs, content) && Honest(w.committed, content)
    ensures Honest(Run(rs, w, moves).committed, content)
    decreases |moves|
  {
    if moves != [] {
      RunStaysHonest(rs, Step(rs, w, moves[0]), moves[1..], content);
    }
  }

  // ---- Answers ----------------------------------------------------------------

  /** Alone, the two database steps answer and leave what the handler does. */
  lemma UndisturbedIsHandler(requests: seq<Request>, w: World, i: nat, day: Text, storeFails: bool)
    requires |w.phases| == |requests| && i < |requests| && w.phases[i] == Arrived
    ensures var v, r := Run(requests, w, [ReadLedger(i), Commit(i, day, storeFails)]), requests[i];
            v.phases[i] == Answered(if r.id !in w.db.ledger && storeFails then 500 else 204) &&
            v.db == (if r.id in w.db.ledger || storeFails then w.db else Transaction(w.db, r, day).value) &&
            v.committed == (if r.id in w.db.ledger || storeFails then w.committed else w.committed + [r])
  {
    hide Transaction;
    var seen := Step(requests, w, ReadLedger(i));
    var moves := [ReadLedger(i), Commit(i, day, storeFails)];
    var rest := [Commit(i, day, storeFails)];
    assert moves[1..] == rest && rest[1..] == [];
    assert Run(requests, w, moves) == Run(requests, seen, rest);
    assert Run(requests, seen, rest) == Run(requests, Step(requests, seen, rest[0]), []);
    AbortsIff(w.db, requests[i], day);
  }

  lemma AbortsIff(db: Db, r: Request, day: Text)
    ensures Transaction(db, r, day).None? <==> r.id in db.ledger
  {
  }

  /** Every answer is a 204 or a 500, and a 204 means that the id has its ledger row. */
  ghost predicate TrueAnswers(requests: seq<Request>, w: World)
    requires |w.phases| == |requests|
  {
    forall i :: 0 <= i < |requests| && w.phases[i].Answered? ==>
      (w.phases[i].status == 204 && requests[i].id in w.db.ledger) || w.phases[i].status == 500
  }

  lemma StepAnswersTruly(requests: seq<Request>, w: World, m: Move)
    requires |w.phases| == |requests| && TrueAnswers(requests, w)
    ensures |Step(requests, w, m).phases| == |requests| && TrueAnswers(requests, Step(requests, w, m))
  {
    hide CountRows, InstallRows, AddAll;
  }

  /** However handlers race, no client is told that its batch is in when it is not. */
  lemma {:induction false} RacingAnswersAreTrue(requests: seq<Request>, w: World, moves: seq<Move>)
    requires |w.phases| == |requests| && TrueAnswers(requests, w)
    ensures TrueAnswers(requests, Run(requests, w, moves))
    decreases |moves|
  {
    hide Step, TrueAnswers;
    if moves != [] {
      StepAnswersTruly(requests, w, moves[0]);
      RacingAnswersAreTrue(requests, Step(requests, w, moves[0]), moves[1..]);
    }
  }
}

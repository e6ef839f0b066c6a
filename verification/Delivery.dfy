/**
 Delivery end to end: the client's queue and flush, a network that loses and delays,
 the worker's ledger, and the retention job, as one state machine.

 Events are named by their position in the order they were pushed, so that two equal
 events stay two. A batch id is its content: the digest is injective. The ledger read
 and the transaction are one step here; Ingress shows that racing ones behave so.
 */
module Delivery {
  import opened Texts
  import Queue = TelemetryQueue
  import Retention

  type Event = Queue.Event

  const LEDGER_DAYS := Retention.BATCH_ID_RETENTION_DAYS

  /** The events at positions `from` to `to - 1`, sent as one batch. */
  datatype Range = Range(from: nat, to: nat)

  /**
   `pushed` and `front` give the queue: the pushed events from `front` on. `open` is
   the last batch sent and not confirmed. `counted` lists the batches the worker
   folded into its counters, and `received` the last day each id was ledgered: both
   are history, kept when retention forgets.
   */
  datatype World = World(
    pushed: seq<Event>, front: nat,
    sent: set<Range>, waiting: bool, open: Option<Range>,
    ledger: map<seq<Event>, int>, answered: set<Range>, today: int,
    counted: seq<Range>, received: map<seq<Event>, int>, trimmed: set<nat>)

  datatype Step =
    | Push(events: seq<Event>)
    | Send
    | Arrive(m: Range)
    | Confirm
    | GiveUp
    | NextDay
    | Prune

  function Start(): World {
    World([], 0, {}, false, None, map[], {}, 0, [], map[], {})
  }

  function Content(w: World, m: Range): seq<Event>
    requires m.from <= m.to <= |w.pushed|
  {
    w.pushed[m.from..m.to]
  }

  function Positions(from: nat, to: nat): (r: set<nat>)
    ensures forall p: nat :: p in r <==> (from <= p < to)
    decreases if from < to then to - from else 0
  {
    if from >= to then {} else {from} + Positions(from + 1, to)
  }

  /** The batch a flush would send now. */
  function Next(w: World): Range
    requires w.front <= |w.pushed|
  {
    Range(w.front, if |w.pushed| - w.front < Queue.MAX_BATCH_SIZE then |w.pushed| else w.front + Queue.MAX_BATCH_SIZE)
  }

  function NextFront(w: World, m: Range): nat
    requires m.from <= m.to && w.front <= |w.pushed|
  {
    if w.front + (m.to - m.from) < |w.pushed| then w.front + (m.to - m.from) else |w.pushed|
  }

  /** The events still queued. */
  function QueueOf(w: World): seq<Event>
    requires w.front <= |w.pushed|
  {
    w.pushed[w.front..]
  }

  /** How many events a push takes off the front: what the queue's own trim drops. */
  function Dropped(w: World, events: seq<Event>): (n: nat)
    requires w.front <= |w.pushed|
    ensures w.front + n <= |w.pushed| + |events|
  {
    PushShortens(QueueOf(w), events);
    |QueueOf(w)| + |events| - |Queue.Apply(QueueOf(w), Queue.Push(events))|
  }

  lemma PushShortens(q: seq<Event>, events: seq<Event>)
    ensures |Queue.Apply(q, Queue.Push(events))| <= |q| + |events|
  {
    if events != [] { var dropped := Queue.TrimIsSuffix(q + events); }
  }

  ghost predicate Shaped(w: World) {
    && w.front <= |w.pushed|
    && (forall m :: m in w.sent ==> m.from < m.to <= |w.pushed| && m.to - m.from <= Queue.MAX_BATCH_SIZE)
    && (w.open.Some? ==> w.open.value in w.sent)
    && (w.waiting ==> w.open.Some?)
    && w.answered <= w.sent
  }

  /** Which steps can happen; `Arrive` may repeat and may come after the client gave up. */
  ghost predicate Enabled(w: World, s: Step)
    requires Shaped(w)
  {
    match s
    case Push(events) => true
    case Send => !w.waiting && w.front < |w.pushed|
    case Arrive(m) => m in w.sent
    case Confirm => w.waiting && w.open.value in w.answered
    case GiveUp => w.waiting
    case NextDay => true
    case Prune => true
  }

  function Do(w: World, s: Step): (v: World)
    requires Shaped(w) && Enabled(w, s)
    ensures Shaped(v)
  {
    match s
    case Push(events) =>
      var dropped := Dropped(w, events);
      w.(pushed := w.pushed + events, front := w.front + dropped,
         trimmed := w.trimmed + Positions(w.front, w.front + dropped))
    case Send =>
      var m := Next(w);
      w.(sent := w.sent + {m}, waiting := true, open := Some(m))
    case Arrive(m) =>
      var id := Content(w, m);
      var w' := w.(answered := w.answered + {m});
      if id in w.ledger then w'
      else w'.(ledger := w.ledger[id := w.today], received := w.received[id := w.today], counted := w.counted + [m])
    case Confirm =>
      w.(front := NextFront(w, w.open.value), waiting := false, open := None)
    case GiveUp => w.(waiting := false)
    case NextDay => w.(today := w.today + 1)
    case Prune => w.(ledger := map id | id in w.ledger && w.ledger[id] >= w.today - LEDGER_DAYS :: w.ledger[id])
  }

  // ---- The premises, each a condition on one step ---------------------------

  /** While a flush waits for its answer, a push leaves the batch at the front, or nothing in the queue. */
  ghost predicate FrontHolds(w: World, s: Step)
    requires Shaped(w)
  {
    s.Push? && w.waiting ==>
      var front := w.front + Dropped(w, s.events);
      front == w.open.value.from || front == |w.pushed| + |s.events|
  }

  /** An unconfirmed batch is retried as it was, unless trimming took all of it. */
  ghost predicate RetryUnchanged(w: World, s: Step)
    requires Shaped(w)
  {
    s.Send? && w.open.Some? ==> Next(w) == w.open.value || w.open.value.to <= w.front
  }

  /** An uncounted batch is sent under an id that neither the ledger nor another uncounted batch has. */
  ghost predicate FreshId(w: World, s: Step)
    requires Shaped(w)
  {
    s.Send? && Next(w) !in w.counted ==>
      Content(w, Next(w)) !in w.ledger &&
      forall m :: m in w.sent && m !in w.counted && m != Next(w) ==> Content(w, m) != Content(w, Next(w))
  }

  /** A batch already counted arrives again only while the ledger holds its id. */
  ghost predicate RowStillThere(w: World, s: Step)
    requires Shaped(w) && Enabled(w, s)
  {
    s.Arrive? && s.m in w.counted ==> Content(w, s.m) in w.ledger
  }

  datatype Premise = Trimming | Retry | Freshness | Window

  /** The step can happen and meets every premise that is not waived. */
  ghost predicate AllowedBut(w: World, s: Step, waived: set<Premise>)
    requires Shaped(w)
  {
    && Enabled(w, s)
    && (Trimming in waived || FrontHolds(w, s))
    && (Retry in waived || RetryUnchanged(w, s))
    && (Freshness in waived || FreshId(w, s))
    && (Window in waived || RowStillThere(w, s))
  }

  ghost predicate Allowed(w: World, s: Step)
    requires Shaped(w)
  {
    AllowedBut(w, s, {})
  }

  // ---- The invariant --------------------------------------------------------

  ghost predicate Apart(a: Range, b: Range) {
    a == b || a.to <= b.from || b.to <= a.from
  }

  function Covers(m: Range, p: nat): bool {
    m.from <= p < m.to
  }

  /**
   Batches do not overlap, and every batch but the open one lies before the front. The
   front passes the open batch's first event only by trimming, so only once more events
   were pushed behind it, and under a waiting flush only if that emptied the queue.
   */
  ghost predicate Batches(w: World) {
    && (forall a, b :: a in w.sent && b in w.sent ==> Apart(a, b))
    && (forall m :: m in w.sent && w.open != Some(m) ==> m.to <= w.front)
    && (w.open.Some? ==> w.open.value.from <= w.front)
    && (w.open.Some? && w.open.value.from < w.front ==> w.open.value.to < |w.pushed|)
    && (w.waiting && w.open.Some? ==> w.open.value.from == w.front || w.front == |w.pushed|)
  }

  /** Only events before the front were trimmed; the others before it belong to counted batches. */
  ghost predicate Accounted(w: World) {
    && (forall p :: p in w.trimmed ==> p < w.front)
    && (forall p: nat :: p < w.front && p !in w.trimmed ==> exists m :: m in w.counted && Covers(m, p))
  }

  /** Each batch is counted at most once, and answered exactly when counted. */
  ghost predicate CountedOnce(w: World) {
    && (forall m :: m in w.counted ==> m in w.sent)
    && (forall i, j :: 0 <= i < j < |w.counted| ==> w.counted[i] != w.counted[j])
    && (forall m :: m in w.answered <==> m in w.counted)
  }

  /**
   Uncounted batches have ids of their own that the ledger does not hold; the ids ever
   received are those of the counted ones.
   */
  ghost predicate Identified(w: World)
    requires Shaped(w)
  {
    && (forall m :: m in w.sent && m !in w.counted ==> Content(w, m) !in w.ledger)
    && OwnIds(w)
    && (forall m :: m in w.sent && m in w.counted ==> Content(w, m) in w.received)
    && (forall id :: id in w.received ==> exists m :: m in w.counted && m in w.sent && Content(w, m) == id)
  }

  ghost predicate OwnIds(w: World)
    requires Shaped(w)
  {
    forall a, b :: a in w.sent && b in w.sent && a !in w.counted && b !in w.counted && a != b ==>
      Content(w, a) != Content(w, b)
  }

  /** The ledger remembers every id received within the window. */
  ghost predicate Remembers(w: World) {
    && (forall id :: id in w.received && w.received[id] >= w.today - LEDGER_DAYS ==> id in w.ledger)
    && (forall id :: id in w.ledger ==> id in w.received && w.ledger[id] == w.received[id])
  }

  ghost predicate Ledger(w: World)
    requires Shaped(w)
  {
    CountedOnce(w) && Identified(w) && Remembers(w)
  }

  ghost predicate Invariant(w: World) {
    Shaped(w) && Batches(w) && Accounted(w) && Ledger(w)
  }

  lemma StartIsGood()
    ensures Invariant(Start())
  {
  }

  lemma ContentStays(w: World, events: seq<Event>, m: Range)
    requires m.from <= m.to <= |w.pushed|
    ensures (w.pushed + events)[m.from..m.to] == Content(w, m)
  {
  }

  lemma PushDoes(w: World, events: seq<Event>)
    requires Shaped(w)
    ensures var n, v := Dropped(w, events), Do(w, Push(events));
            v == w.(pushed := w.pushed + events, front := w.front + n, trimmed := v.trimmed) &&
            forall p :: p in v.trimmed <==> p in w.trimmed || w.front <= p < w.front + n
  {
    hide Dropped;
  }

  lemma PushKeeps(w: World, s: Step)
    requires Invariant(w) && s.Push? && Allowed(w, s)
    ensures Invariant(Do(w, s))
  {
    hide Dropped, Positions, Batches, Accounted, Identified, Remembers, CountedOnce;
    var v := Do(w, s);
    PushDoes(w, s.events);
    if Dropped(w, s.events) > 0 { DropsOnlyForMore(w, s.events); }
    PushKeepsQueue(w, v);
    CountedOnceStill(w, v);
    IdentifiedStill(w, v);
    RemembersStill(w, v);
  }

  lemma DropsOnlyForMore(w: World, events: seq<Event>)
    requires Shaped(w) && Dropped(w, events) > 0
    ensures events != []
  {
  }

  lemma PushKeepsQueue(w: World, v: World)
    requires Shaped(w) && Batches(w) && Accounted(w) && w.pushed <= v.pushed
    requires w.front <= v.front && (w.front < v.front ==> |w.pushed| < |v.pushed|)
    requires w.waiting && w.open.Some? ==> w.open.value.from == v.front || v.front == |v.pushed|
    requires v.sent == w.sent && v.open == w.open && v.counted == w.counted && v.waiting == w.waiting
    requires forall p :: p in v.trimmed <==> p in w.trimmed || w.front <= p < v.front
    ensures Batches(v) && Accounted(v)
  {
    forall p: nat | p < v.front && p !in v.trimmed ensures exists m :: m in v.counted && Covers(m, p) {
      assert p < w.front;
    }
  }

  lemma CountedOnceStill(w: World, v: World)
    requires CountedOnce(w) && v.sent == w.sent && v.counted == w.counted && v.answered == w.answered
    ensures CountedOnce(v)
  {
  }

  lemma SendKeeps(w: World, s: Step)
    requires Invariant(w) && s.Send? && Allowed(w, s)
    ensures Invariant(Do(w, s))
  {
    hide Remembers, Identified;
    var v, m := Do(w, s), Next(w);
    if w.open == Some(m) { assert v.sent == w.sent; } else { assert m !in w.sent; }
    SendKeepsIds(w, v, m);
    RemembersStill(w, v);
  }

  lemma SendKeepsIds(w: World, v: World, m: Range)
    requires Shaped(w) && Identified(w) && Shaped(v) && v.pushed == w.pushed && v.sent == w.sent + {m}
    requires v.received == w.received && v.counted == w.counted && v.ledger == w.ledger
    requires m.to <= |w.pushed| && (m in w.sent || m !in w.counted)
    requires FreshId(w, Send) && m == Next(w)
    ensures Identified(v)
  {
    forall a | a in w.sent ensures Content(v, a) == Content(w, a) {}
    forall id | id in v.received ensures exists a :: a in v.counted && a in v.sent && Content(v, a) == id {
      var a :| a in w.counted && a in w.sent && Content(w, a) == id;
      assert Content(v, a) == id;
    }
  }

  lemma RemembersStill(w: World, v: World)
    requires Remembers(w) && v.received == w.received && v.ledger == w.ledger && v.today == w.today
    ensures Remembers(v)
  {
  }

  lemma ArriveKeeps(w: World, s: Step)
    requires Invariant(w) && s.Arrive? && Allowed(w, s)
    ensures Invariant(Do(w, s))
  {
    hide Batches, Accounted, Ledger, Identified;
    QueueStill(w, Do(w, s));
    if Content(w, s.m) in w.ledger {
      ReplayKeepsLedger(w, s.m);
    } else {
      CountingKeepsLedger(w, s.m);
    }
  }

  lemma ReplayKeepsLedger(w: World, m: Range)
    requires Shaped(w) && Ledger(w) && m in w.sent && Content(w, m) in w.ledger
    ensures Ledger(Do(w, Arrive(m)))
  {
    hide Identified, Do, Content;
    ReplayOnlyAnswers(w, m);
    AlreadyCounted(w, m);
    IdentifiedStill(w, w.(answered := w.answered + {m}));
  }

  lemma ReplayOnlyAnswers(w: World, m: Range)
    requires Shaped(w) && m in w.sent && Content(w, m) in w.ledger
    ensures Do(w, Arrive(m)) == w.(answered := w.answered + {m})
  {
  }

  lemma CountingKeepsLedger(w: World, m: Range)
    requires Shaped(w) && Ledger(w) && m in w.sent && Content(w, m) !in w.ledger
    requires RowStillThere(w, Arrive(m))
    ensures Ledger(Do(w, Arrive(m)))
  {
    assert m !in w.counted;
    CountingRecords(w, m);
    hide Identified, CountedOnce, Remembers, Do, RowStillThere, Content;
    var id := Content(w, m);
    var v := w.(answered := w.answered + {m}, ledger := w.ledger[id := w.today],
                received := w.received[id := w.today], counted := w.counted + [m]);
    CountedNow(w, v, m);
    IdentifiedNow(w, v, m);
    RemembersNow(w, v, id);
  }

  lemma RemembersNow(w: World, v: World, id: seq<Event>)
    requires Remembers(w) && v.today == w.today
    requires v.ledger == w.ledger[id := w.today] && v.received == w.received[id := w.today]
    ensures Remembers(v)
  {
  }

  lemma CountingRecords(w: World, m: Range)
    requires Shaped(w) && m in w.sent && Content(w, m) !in w.ledger
    ensures Do(w, Arrive(m)) ==
            w.(answered := w.answered + {m}, ledger := w.ledger[Content(w, m) := w.today],
               received := w.received[Content(w, m) := w.today], counted := w.counted + [m])
  {
  }

  lemma AlreadyCounted(w: World, m: Range)
    requires Shaped(w) && Ledger(w) && m in w.sent && Content(w, m) in w.ledger
    ensures m in w.counted
  {
  }

  lemma QueueStill(w: World, v: World)
    requires Batches(w) && Accounted(w)
    requires v.pushed == w.pushed && v.front == w.front && v.trimmed == w.trimmed
    requires v.sent == w.sent && v.open == w.open && (v.waiting ==> w.waiting)
    requires forall m :: m in w.counted ==> m in v.counted
    ensures Batches(v) && Accounted(v)
  {
    forall p: nat | p < v.front && p !in v.trimmed ensures exists m :: m in v.counted && Covers(m, p) {
      var m :| m in w.counted && Covers(m, p);
    }
  }

  lemma IdentifiedStill(w: World, v: World)
    requires Shaped(w) && Identified(w) && Shaped(v) && w.pushed <= v.pushed
    requires v.sent == w.sent && v.received == w.received && v.counted == w.counted
    requires v.ledger.Keys <= w.ledger.Keys
    ensures Identified(v)
  {
    forall m | m in w.sent ensures Content(v, m) == Content(w, m) {}
    forall m | m in v.sent && m !in v.counted ensures Content(v, m) !in v.ledger {
      assert Content(w, m) !in w.ledger.Keys;
    }
    forall id | id in v.received ensures exists m :: m in v.counted && m in v.sent && Content(v, m) == id {
      var m :| m in w.counted && m in w.sent && Content(w, m) == id;
      assert Content(v, m) == id;
    }
  }

  lemma CountedNow(w: World, v: World, m: Range)
    requires CountedOnce(w) && m in w.sent && m !in w.counted
    requires v.sent == w.sent && v.answered == w.answered + {m} && v.counted == w.counted + [m]
    ensures CountedOnce(v)
  {
    forall i, j | 0 <= i < j < |v.counted| ensures v.counted[i] != v.counted[j] {
      if j == |w.counted| { assert w.counted[i] in w.counted; }
    }
  }

  lemma IdentifiedNow(w: World, v: World, m: Range)
    requires Shaped(w) && Identified(w) && Shaped(v) && m in w.sent && m !in w.counted
    requires v.pushed == w.pushed && v.sent == w.sent && v.counted == w.counted + [m]
    requires v.received.Keys == w.received.Keys + {Content(w, m)} && v.ledger.Keys == w.ledger.Keys + {Content(w, m)}
    ensures Identified(v)
  {
    forall a | a in w.sent ensures Content(v, a) == Content(w, a) {}
    forall a ensures a in v.counted <==> a in w.counted || a == m {}
    forall a | a in v.sent && a !in v.counted ensures Content(v, a) !in v.ledger.Keys {}
    forall a | a in v.sent && a in v.counted ensures Content(v, a) in v.received {
      assert Content(v, a) in v.received.Keys <==> Content(w, a) in w.received.Keys || Content(w, a) == Content(w, m);
    }
    forall id | id in v.received ensures exists a :: a in v.counted && a in v.sent && Content(v, a) == id {
      assert id in v.received.Keys;
      if id == Content(w, m) {
        assert Content(v, m) == id;
      } else {
        var a :| a in w.counted && a in w.sent && Content(w, a) == id;
        assert Content(v, a) == id;
      }
    }
  }

  lemma ConfirmKeeps(w: World, s: Step)
    requires Invariant(w) && s.Confirm? && Allowed(w, s)
    ensures Invariant(Do(w, s))
  {
    hide Remembers, Identified;
    var v, m := Do(w, s), w.open.value;
    assert v.front == if w.front == m.from then m.to else w.front;
    forall p: nat | p < v.front && p !in v.trimmed ensures exists a :: a in v.counted && Covers(a, p) {
      if p < w.front {
        var a :| a in w.counted && Covers(a, p);
      } else {
        assert m in w.counted && Covers(m, p);
      }
    }
    IdentifiedStill(w, v);
    RemembersStill(w, v);
  }

  lemma OtherKeeps(w: World, s: Step)
    requires Invariant(w) && (s.GiveUp? || s.NextDay? || s.Prune?) && Allowed(w, s)
    ensures Invariant(Do(w, s))
  {
    hide Batches, Accounted, Identified;
    QueueStill(w, Do(w, s));
    IdentifiedStill(w, Do(w, s));
  }

  lemma StepKeepsInvariant(w: World, s: Step)
    requires Invariant(w) && Allowed(w, s)
    ensures Invariant(Do(w, s))
  {
    hide Invariant, Do, Allowed;
    match s
    case Push(_) => PushKeeps(w, s);
    case Send => SendKeeps(w, s);
    case Arrive(_) => ArriveKeeps(w, s);
    case Confirm => ConfirmKeeps(w, s);
    case _ => OtherKeeps(w, s);
  }

  // ---- Whole runs -----------------------------------------------------------

  /** Every step can happen and meets every premise that is not waived. */
  ghost predicate AllowedRun(w: World, steps: seq<Step>, waived: set<Premise>)
    requires Shaped(w)
    decreases |steps|
  {
    steps != [] ==> AllowedBut(w, steps[0], waived) && AllowedRun(Do(w, steps[0]), steps[1..], waived)
  }

  ghost function Run(w: World, steps: seq<Step>, waived: set<Premise>): (v: World)
    requires Shaped(w) && AllowedRun(w, steps, waived)
    ensures Shaped(v)
    decreases |steps|
  {
    if steps == [] then w else Run(Do(w, steps[0]), steps[1..], waived)
  }

  lemma {:induction false} RunKeepsInvariant(w: World, steps: seq<Step>)
    requires Invariant(w) && AllowedRun(w, steps, {})
    ensures Invariant(Run(w, steps, {}))
    decreases |steps|
  {
    if steps != [] {
      hide Do, AllowedBut;
      StepKeepsInvariant(w, steps[0]);
      RunKeepsInvariant(Do(w, steps[0]), steps[1..]);
    }
  }

  /** How many times the worker counted the event at position `p`. */
  function Times(counted: seq<Range>, p: nat): nat {
    if counted == [] then 0
    else Times(counted[..|counted| - 1], p) + (if Covers(counted[|counted| - 1], p) then 1 else 0)
  }

  lemma TimesAppend(counted: seq<Range>, m: Range, p: nat)
    ensures Times(counted + [m], p) == Times(counted, p) + (if Covers(m, p) then 1 else 0)
  {
    assert (counted + [m])[..|counted|] == counted;
  }

  lemma {:induction false} TimesNone(counted: seq<Range>, p: nat)
    requires forall m :: m in counted ==> !Covers(m, p)
    ensures Times(counted, p) == 0
    decreases |counted|
  {
    if counted != [] { TimesNone(counted[..|counted| - 1], p); }
  }

  lemma {:induction false} TimesOnce(counted: seq<Range>, p: nat)
    requires forall i, j :: 0 <= i < j < |counted| ==> counted[i] != counted[j]
    requires forall a, b :: a in counted && b in counted ==> Apart(a, b)
    ensures Times(counted, p) <= 1
    ensures (exists m :: m in counted && Covers(m, p)) ==> Times(counted, p) == 1
    decreases |counted|
  {
    if counted != [] {
      var front, last := counted[..|counted| - 1], counted[|counted| - 1];
      TimesOnce(front, p);
      if Covers(last, p) {
        forall m | m in front ensures !Covers(m, p) { assert m in counted && last in counted && Apart(m, last); }
        TimesNone(front, p);
      } else if m :| m in counted && Covers(m, p) {
        assert m in front;
      }
    }
  }

  /** Gone from the queue untrimmed and counted exactly once, or trimmed or queued and counted at most once. */
  predicate CountedRight(w: World, p: nat) {
    if p < w.front && p !in w.trimmed then Times(w.counted, p) == 1 else Times(w.counted, p) <= 1
  }

  ghost predicate ExactlyOnce(w: World) {
    forall p: nat :: p < |w.pushed| ==> CountedRight(w, p)
  }

  /**
   Exactly once. In every state of every allowed run, with requests and answers lost,
   late or repeated at will, no pushed event is counted twice, and every one that left
   the queue without being trimmed is counted exactly once.
   */
  lemma EachEventCountsOnce(steps: seq<Step>)
    requires AllowedRun(Start(), steps, {})
    ensures ExactlyOnce(Run(Start(), steps, {}))
  {
    StartIsGood();
    RunKeepsInvariant(Start(), steps);
    hide AllowedRun, Run;
    InvariantCountsOnce(Run(Start(), steps, {}));
  }

  lemma InvariantCountsOnce(w: World)
    requires Invariant(w)
    ensures ExactlyOnce(w)
  {
    hide CountedRight, Invariant;
    forall p: nat | p < |w.pushed| ensures CountedRight(w, p) { CountsOnce(w, p); }
  }

  lemma CountsOnce(w: World, p: nat)
    requires Invariant(w)
    ensures CountedRight(w, p)
  {
    TimesOnce(w.counted, p);
  }

  /**
   The steps are those of the file-backed queue: a push appends and trims, a flush
   sends the front it peeked, and a confirmation removes as many as were sent.
   */
  lemma StepsAreQueueOperations(w: World, events: seq<Event>)
    requires Shaped(w)
    ensures QueueOf(Do(w, Push(events))) == Queue.Apply(QueueOf(w), Queue.Push(events))
    ensures Content(w, Next(w)) == QueueOf(w)[..Queue.Least(Queue.MAX_BATCH_SIZE, |QueueOf(w)|)]
    ensures Enabled(w, Confirm) ==>
              QueueOf(Do(w, Confirm)) == Queue.Apply(QueueOf(w), Queue.Remove(w.open.value.to - w.open.value.from))
  {
    hide *;
    PushIsQueuePush(w, events);
    SendIsPeek(w);
    ConfirmIsRemove(w);
  }

  lemma PushIsQueuePush(w: World, events: seq<Event>)
    requires Shaped(w)
    ensures QueueOf(Do(w, Push(events))) == Queue.Apply(QueueOf(w), Queue.Push(events))
  {
    hide Queue.Trim, Positions;
    PushDoes(w, events);
    var q := QueueOf(w);
    assert (w.pushed + events)[w.front..] == q + events;
    if events != [] {
      var dropped := Queue.TrimIsSuffix(q + events);
      assert (w.pushed + events)[w.front + dropped..] == (q + events)[dropped..];
    }
  }

  lemma SendIsPeek(w: World)
    requires Shaped(w)
    ensures Content(w, Next(w)) == QueueOf(w)[..Queue.Least(Queue.MAX_BATCH_SIZE, |QueueOf(w)|)]
  {
  }

  lemma ConfirmIsRemove(w: World)
    requires Shaped(w)
    ensures Enabled(w, Confirm) ==>
              QueueOf(Do(w, Confirm)) == Queue.Apply(QueueOf(w), Queue.Remove(w.open.value.to - w.open.value.from))
  {
    hide Queue.Trim;
  }
}

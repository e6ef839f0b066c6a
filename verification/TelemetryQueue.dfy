/**
 The bounded file-backed FIFO of apps/cli/src/queue.ts and the flush of
 apps/cli/src/flush.ts.

 An event is the UTF-8 of its compact JSON, which is all the queue looks at. Each
 method runs to completion before another process touches the file.
 */
module TelemetryQueue {
  import opened Texts

  type Event = seq<bv8>

  const MAX_EVENTS := 1000
  const MAX_BYTES := 256 * 1024
  const MAX_BATCH_SIZE := 100

  const OPEN: bv8 := 0x5B
  const CLOSE: bv8 := 0x5D
  const SEPARATOR: bv8 := 0x2C

  function Joined(events: seq<Event>): seq<bv8> {
    if events == [] then []
    else if |events| == 1 then events[0]
    else events[0] + [SEPARATOR] + Joined(events[1..])
  }

  /** The bytes `save` writes: `JSON.stringify(events)`. */
  function Serialize(events: seq<Event>): seq<bv8> {
    [OPEN] + Joined(events) + [CLOSE]
  }

  predicate WithinCaps(events: seq<Event>) {
    |events| <= MAX_EVENTS && |Serialize(events)| <= MAX_BYTES
  }

  lemma EmptyFits()
    ensures WithinCaps([])
  {
  }

  /** Drop the oldest event until both caps hold. */
  function Trim(events: seq<Event>): (kept: seq<Event>)
    ensures WithinCaps(kept)
    decreases |events|
  {
    if WithinCaps(events) then events
    else
      EmptyFits();
      Trim(events[1..])
  }

  // ---- The byte count -------------------------------------------------------

  function TotalSize(events: seq<Event>): nat {
    if events == [] then 0 else |events[0]| + TotalSize(events[1..])
  }

  /** Brackets, and one comma a gap. */
  function Framing(n: nat): nat {
    2 + if n > 1 then n - 1 else 0
  }

  lemma {:induction false} SerializedSize(events: seq<Event>)
    ensures |Serialize(events)| == TotalSize(events) + Framing(|events|)
    decreases |events|
  {
    if |events| == 1 {
      assert TotalSize(events[1..]) == 0;
    } else if |events| > 1 {
      SerializedSize(events[1..]);
    }
  }

  lemma DropOne(events: seq<Event>)
    requires events != []
    ensures |Serialize(events[1..])| ==
            |Serialize(events)| - |events[0]| - (if |events| > 1 then 1 else 0)
  {
    SerializedSize(events);
    SerializedSize(events[1..]);
  }

  /** `sizes.reduce((a, b) => a + b, 0)`. */
  function SumOf(sizes: seq<nat>): nat {
    if sizes == [] then 0 else sizes[0] + SumOf(sizes[1..])
  }

  function Sizes(events: seq<Event>): seq<nat> {
    seq(|events|, k requires 0 <= k < |events| => |events[k]|)
  }

  lemma {:induction false} SizesSum(events: seq<Event>)
    ensures SumOf(Sizes(events)) == TotalSize(events)
    decreases |events|
  {
    if events != [] {
      assert Sizes(events)[1..] == Sizes(events[1..]);
      SizesSum(events[1..]);
    }
  }

  // ---- The queue ------------------------------------------------------------

  /** queue.json: None when absent, unreadable or not an array. */
  class QueueFile {
    var stored: Option<seq<Event>>

    constructor ()
      ensures stored == None
    {
      stored := None;
    }
  }

  function Content(stored: Option<seq<Event>>): seq<Event> {
    if stored.Some? then stored.value else []
  }

  function Least(a: nat, b: nat): nat {
    if a < b then a else b
  }

  /** One process's view of the queue. `writeOk` says whether its best-effort save succeeds. */
  class Queue {
    const file: QueueFile
    var events: seq<Event>

    constructor (file: QueueFile)
      ensures this.file == file && events == []
    {
      this.file := file;
      events := [];
    }

    method Load()
      modifies `events
      ensures events == Content(file.stored)
    {
      events := if file.stored.Some? then file.stored.value else [];
    }

    method Save(writeOk: bool)
      modifies file
      ensures file.stored == if writeOk then Some(events) else old(file.stored)
    {
      if writeOk { file.stored := Some(events); }
    }

    method PushMany(more: seq<Event>, writeOk: bool)
      modifies this, file
      ensures file.stored ==
              if more != [] && writeOk then Some(Trim(Content(old(file.stored)) + more)) else old(file.stored)
    {
      if |more| == 0 { return; }
      Load();
      events := events + more;
      TrimEvents();
      Save(writeOk);
    }

    /** Two loops: by count, then by a running byte total. */
    method TrimEvents()
      modifies `events
      ensures events == Trim(old(events))
    {
      while |events| > MAX_EVENTS
        invariant Trim(events) == Trim(old(events))
        decreases |events|
      {
        events := events[1..];
      }
      var sizes := Sizes(events);
      var total := SumOf(sizes) + Framing(|sizes|);
      SizesSum(events);
      SerializedSize(events);
      var dropped := 0;
      assert events[0..] == events;
      while dropped < |sizes| && total > MAX_BYTES
        invariant dropped <= |sizes| == |events| <= MAX_EVENTS
        invariant sizes == Sizes(events)
        invariant total == |Serialize(events[dropped..])|
        invariant Trim(events[dropped..]) == Trim(old(events))
      {
        var rest := events[dropped..];
        DropOne(rest);
        assert rest[1..] == events[dropped + 1..];
        assert sizes[dropped] == |rest[0]|;
        total := total - sizes[dropped];
        if |sizes| - dropped > 1 { total := total - 1; }
        dropped := dropped + 1;
      }
      assert WithinCaps(events[dropped..]) by {
        if dropped == |sizes| { assert events[dropped..] == [] && |Serialize([])| == 2; }
      }
      if dropped > 0 { events := events[dropped..]; }
    }

    method Peek(count: nat) returns (front: seq<Event>)
      modifies `events
      ensures front == Content(file.stored)[..Least(count, |Content(file.stored)|)]
    {
      Load();
      front := events[..Least(count, |events|)];
    }

    method RemoveDelivered(count: nat, writeOk: bool)
      modifies this, file
      ensures var before := Content(old(file.stored));
              file.stored == if count > 0 && writeOk then Some(before[Least(count, |before|)..]) else old(file.stored)
    {
      if count == 0 { return; }
      Load();
      events := events[Least(count, |events|)..];
      Save(writeOk);
    }

    method Size() returns (n: nat)
      modifies `events
      ensures n == |Content(file.stored)|
    {
      Load();
      n := |events|;
    }

    /**
     Peek, deliver, remove on a confirmed 2xx. `delivered` is the transport's answer.
     The batch sent is the queue's front, and only a confirmed batch leaves the queue.
     */
    method FlushTelemetry(enabled: bool, delivered: bool, writeOk: bool) returns (batch: seq<Event>)
      modifies this, file
      ensures var before := Content(old(file.stored));
              && batch == (if enabled then before[..Least(MAX_BATCH_SIZE, |before|)] else [])
              && Content(file.stored) == (if delivered && writeOk then before[|batch|..] else before)
    {
      batch := [];
      if !enabled { return; }
      var front := Peek(MAX_BATCH_SIZE);
      if |front| == 0 { return; }
      batch := front;
      if delivered { RemoveDelivered(|front|, writeOk); }
    }
  }

  // ---- Trimming keeps the longest suffix ------------------------------------

  lemma {:induction false} TrimIsSuffix(events: seq<Event>) returns (dropped: nat)
    ensures dropped <= |events| && Trim(events) == events[dropped..]
    decreases |events|
  {
    if WithinCaps(events) {
      dropped := 0;
      assert events[0..] == events;
    } else {
      EmptyFits();
      dropped := TrimIsSuffix(events[1..]);
      assert events[1..][dropped..] == events[dropped + 1..];
      dropped := dropped + 1;
    }
  }

  /** Any suffix within both caps is a suffix of what trimming keeps. */
  lemma {:induction false} TrimKeepsLongestSuffix(events: seq<Event>, k: nat)
    requires k <= |events| && WithinCaps(events[k..])
    ensures |events| - k <= |Trim(events)| <= |events|
    ensures Trim(events) == events[|events| - |Trim(events)|..]
    decreases |events|
  {
    var dropped := TrimIsSuffix(events);
    if !WithinCaps(events) {
      assert k > 0 by { assert events[0..] == events; }
      assert events[1..][k - 1..] == events[k..];
      TrimKeepsLongestSuffix(events[1..], k - 1);
    }
  }

  // ---- Conservation ---------------------------------------------------------

  /** What one process or another does to the file; failed saves do nothing. */
  datatype Op = Push(events: seq<Event>) | Remove(count: nat)

  function Apply(q: seq<Event>, op: Op): seq<Event> {
    match op
    case Push(events) => if events == [] then q else Trim(q + events)
    case Remove(count) => q[Least(count, |q|)..]
  }

  function ApplyAll(q: seq<Event>, ops: seq<Op>): seq<Event>
    decreases |ops|
  {
    if ops == [] then q else ApplyAll(Apply(q, ops[0]), ops[1..])
  }

  function PushedBy(op: Op): seq<Event> {
    if op.Push? then op.events else []
  }

  function Pushed(ops: seq<Op>): seq<Event>
    decreases |ops|
  {
    if ops == [] then [] else PushedBy(ops[0]) + Pushed(ops[1..])
  }

  /** The events an operation takes off the front, by delivery or by trimming. */
  function RemovedBy(q: seq<Event>, op: Op): seq<Event> {
    var all := q + PushedBy(op);
    var left := |Apply(q, op)|;
    if left <= |all| then all[..|all| - left] else []
  }

  function Removed(q: seq<Event>, ops: seq<Op>): seq<Event>
    decreases |ops|
  {
    if ops == [] then [] else RemovedBy(q, ops[0]) + Removed(Apply(q, ops[0]), ops[1..])
  }

  lemma OpConserves(q: seq<Event>, op: Op)
    ensures q + PushedBy(op) == RemovedBy(q, op) + Apply(q, op)
  {
    var all := q + PushedBy(op);
    match op
    case Push(events) =>
      if events != [] { var dropped := TrimIsSuffix(all); }
    case Remove(count) =>
      assert all == q;
  }

  /** Whatever the interleaving: events ever present are those removed, then those queued, in order. */
  lemma {:induction false} QueueConserves(q: seq<Event>, ops: seq<Op>)
    ensures q + Pushed(ops) == Removed(q, ops) + ApplyAll(q, ops)
    decreases |ops|
  {
    if ops == [] {
      assert q + [] == q && [] + q == q;
    } else {
      OpConserves(q, ops[0]);
      QueueConserves(Apply(q, ops[0]), ops[1..]);
      hide *;
      HistoryUnfold(q, ops);
      Reassociate(q, PushedBy(ops[0]), Pushed(ops[1..]), RemovedBy(q, ops[0]), Apply(q, ops[0]),
                  Removed(Apply(q, ops[0]), ops[1..]), ApplyAll(q, ops));
    }
  }

  lemma HistoryUnfold(q: seq<Event>, ops: seq<Op>)
    requires ops != []
    ensures Pushed(ops) == PushedBy(ops[0]) + Pushed(ops[1..])
    ensures Removed(q, ops) == RemovedBy(q, ops[0]) + Removed(Apply(q, ops[0]), ops[1..])
    ensures ApplyAll(q, ops) == ApplyAll(Apply(q, ops[0]), ops[1..])
  {
    hide Apply, PushedBy, RemovedBy;
  }

  lemma Reassociate<T>(q: seq<T>, a: seq<T>, b: seq<T>, c: seq<T>, p: seq<T>, d: seq<T>, e: seq<T>)
    requires q + a == c + p && p + b == d + e
    ensures q + (a + b) == (c + d) + e
  {
    calc {
      q + (a + b);
      (q + a) + b;
      c + (p + b);
      (c + d) + e;
    }
  }

  // ---- When a flush removes what it peeked ----------------------------------

  lemma {:induction false} TotalSizeConcat(a: seq<Event>, b: seq<Event>)
    ensures TotalSize(a + b) == TotalSize(a) + TotalSize(b)
    decreases |a|
  {
    if a == [] {
      assert a + b == b;
    } else {
      assert (a + b)[1..] == a[1..] + b;
      TotalSizeConcat(a[1..], b);
    }
  }

  lemma PrefixFits(a: seq<Event>, b: seq<Event>)
    requires WithinCaps(a + b)
    ensures WithinCaps(a)
  {
    SerializedSize(a);
    SerializedSize(a + b);
    TotalSizeConcat(a, b);
    hide Serialize, TotalSize;
  }

  ghost predicate OnlyPushes(ops: seq<Op>) {
    forall i :: 0 <= i < |ops| ==> ops[i].Push?
  }

  lemma {:induction false} FitsThroughout(q: seq<Event>, pushes: seq<Op>)
    requires OnlyPushes(pushes)
    ensures WithinCaps(q + Pushed(pushes)) ==> ApplyAll(q, pushes) == q + Pushed(pushes)
    ensures WithinCaps(q) ==> WithinCaps(ApplyAll(q, pushes))
    decreases |pushes|
  {
    if pushes == [] {
      assert q + Pushed(pushes) == q;
    } else {
      hide WithinCaps, Trim;
      var events, rest := pushes[0].events, pushes[1..];
      assert pushes[0].Push?;
      assert q + Pushed(pushes) == (q + events) + Pushed(rest);
      if WithinCaps(q + Pushed(pushes)) {
        PrefixFits(q + events, Pushed(rest));
        TrimOfFitting(q + events);
        if events == [] { assert q + events == q; }
      }
      FitsThroughout(Apply(q, pushes[0]), rest);
      TrimFits(q + events);
    }
  }

  lemma TrimOfFitting(q: seq<Event>)
    requires WithinCaps(q)
    ensures Trim(q) == q
  {
  }

  lemma TrimFits(q: seq<Event>)
    ensures WithinCaps(Trim(q))
  {
  }

  /**
   A flush peeks `n` events, other processes push, the flush removes `n`. Out of all
   events since the peek it takes the run of `n` (or what is left) after those that
   trimming dropped. Nothing was trimmed if and only if the peeked queue and everything
   pushed since fit both caps together, and then it takes the peeked ones. Otherwise it
   takes their like only where the run behind the trimmed events repeats them.
   */
  lemma RemoveTakesPeekedWhenNothingTrimmed(q: seq<Event>, n: nat, pushes: seq<Op>)
    requires WithinCaps(q) && 0 < n <= |q| && OnlyPushes(pushes)
    ensures var all := q + Pushed(pushes);
            var trimmed := |Removed(q, pushes)|;
            var taken := RemovedBy(ApplyAll(q, pushes), Remove(n));
            && trimmed <= |all|
            && taken == all[trimmed..][..Least(n, |all| - trimmed)]
            && (trimmed == 0 <==> WithinCaps(all))
            && (trimmed == 0 ==> taken == q[..n])
            && (taken == q[..n] <==> trimmed + n <= |all| && all[trimmed..trimmed + n] == all[..n])
  {
    hide ApplyAll, Pushed, Removed, WithinCaps;
    var all, now := q + Pushed(pushes), ApplyAll(q, pushes);
    QueueConserves(q, pushes);
    FitsThroughout(q, pushes);
    assert |all| == |Removed(q, pushes)| + |now|;
    if |Removed(q, pushes)| == 0 { assert all == now; }
    assert all[|Removed(q, pushes)|..] == now;
    assert all[..n] == q[..n];
    RunBehind(all, |Removed(q, pushes)|, n);
  }

  /** The run of `n` behind the first `t`, or what is left of it, against the first `n`. */
  lemma RunBehind(all: seq<Event>, t: nat, n: nat)
    requires t <= |all| && n <= |all|
    ensures RemovedBy(all[t..], Remove(n)) == all[t..][..Least(n, |all| - t)]
    ensures RemovedBy(all[t..], Remove(n)) == all[..n] <==> t + n <= |all| && all[t..t + n] == all[..n]
  {
    if t + n <= |all| { assert all[t..][..n] == all[t..t + n]; }
  }

  /** One event fits by itself up to 256 KiB with its brackets; longer, a push of it empties the queue. */
  lemma OneEventFitsIff(e: Event)
    ensures WithinCaps([e]) <==> |e| <= 262_142
    ensures |e| > 262_142 ==> Trim([e]) == []
  {
    SerializedSize([e]);
    SerializedSize([]);
    assert TotalSize([e]) == |e|;
    assert WithinCaps([]);
    hide Serialize, TotalSize;
  }

  /** No more than 1000 events are kept, however small. */
  lemma ThousandAtMost(q: seq<Event>)
    ensures |Trim(q)| <= 1000
    ensures WithinCaps(q) ==> |q| <= 1000 && |Serialize(q)| <= 262_144
  {
    TrimFits(q);
    hide Serialize, Trim;
  }
}

/**
 What undisturbed flushes achieve: one delivers the front batch, and one after the other
 they empty the queue, with every event counted once, exactly when the batches they send
 have ids of their own.
 */
module DeliveryProgress {
  import opened Texts
  import Queue = TelemetryQueue
  import opened Delivery
  import opened DeliveryPremises

  // ---- One flush --------------------------------------------------------------

  /** The next batch is sent, received and confirmed. */
  function Flush(m: Range): seq<Step> {
    [Send, Arrive(m), Confirm]
  }

  /** From any good state, also as a retry: the batch leaves the queue, each event of it counted once. */
  lemma FlushDelivers(w: World, p: nat)
    requires Invariant(w) && Allowed(w, Send)
    requires Next(w) in w.counted ==> Content(w, Next(w)) in w.ledger
    requires Covers(Next(w), p)
    ensures AllowedRun(w, Flush(Next(w)), {})
    ensures var v := Run(w, Flush(Next(w)), {});
            v.front == Next(w).to && v.open == None && v.trimmed == w.trimmed && Times(v.counted, p) == 1
  {
    hide AllowedRun, Run, Times;
    FlushRun(w);
    var v := Run(w, Flush(Next(w)), {});
    RunKeepsInvariant(w, Flush(Next(w)));
    CountsOnce(v, p);
  }

  /** The state after the three steps. */
  function Flushed(w: World): World
    requires Shaped(w)
  {
    var m, id := Next(w), Content(w, Next(w));
    var v := w.(sent := w.sent + {m}, waiting := false, open := None, answered := w.answered + {m}, front := m.to);
    if id in w.ledger then v
    else v.(ledger := w.ledger[id := w.today], received := w.received[id := w.today], counted := w.counted + [m])
  }

  lemma FlushRun(w: World)
    requires Invariant(w) && Allowed(w, Send)
    requires Next(w) in w.counted ==> Content(w, Next(w)) in w.ledger
    ensures AllowedRun(w, Flush(Next(w)), {}) && Run(w, Flush(Next(w)), {}) == Flushed(w)
  {
    hide AllowedRun, Run, Dropped, Positions, Invariant;
    InvariantIsShaped(w);
    SentAs(w);
    var m, w1 := Next(w), Do(w, Send);
    assert Content(w1, m) == Content(w, m);
    var w2 := Do(w1, Arrive(m));
    assert Do(w2, Confirm) == Flushed(w);
    OneStep(w2, Confirm, {});
    RunStep(w1, Arrive(m), [Confirm], {});
    RunStep(w, Send, [Arrive(m)] + [Confirm], {});
    assert [Send] + ([Arrive(m)] + [Confirm]) == Flush(m);
  }

  // ---- All of them ------------------------------------------------------------

  /** The batches a queue is sent in. */
  function Cut(q: seq<Event>): seq<seq<Event>>
    decreases |q|
  {
    if q == [] then []
    else
      var n := Queue.Least(Queue.MAX_BATCH_SIZE, |q|);
      [q[..n]] + Cut(q[n..])
  }

  /** Neither the ledger nor an uncounted batch has the id. */
  ghost predicate OwnId(w: World, id: seq<Event>)
    requires Shaped(w)
  {
    id !in w.ledger && forall m :: m in w.sent && m !in w.counted ==> Content(w, m) != id
  }

  /** The batches of the queue differ, from one another and from what the worker has or may still get. */
  ghost predicate FreshCuts(w: World)
    requires Shaped(w)
  {
    AllOwn(w, Cut(QueueOf(w))) && Differ(Cut(QueueOf(w)))
  }

  ghost predicate AllOwn(w: World, cuts: seq<seq<Event>>)
    requires Shaped(w)
  {
    forall i :: 0 <= i < |cuts| ==> OwnId(w, cuts[i])
  }

  ghost predicate Differ(cuts: seq<seq<Event>>) {
    forall i, j :: 0 <= i < j < |cuts| ==> cuts[i] != cuts[j]
  }

  lemma DifferCons(id: seq<Event>, rest: seq<seq<Event>>)
    ensures Differ([id] + rest) <==> Differ(rest) && forall i :: 0 <= i < |rest| ==> rest[i] != id
  {
    var cuts := [id] + rest;
    assert forall i :: 0 <= i < |rest| ==> rest[i] == cuts[i + 1];
    if Differ(cuts) {
      forall i | 0 <= i < |rest| ensures rest[i] != id { assert cuts[0] != cuts[i + 1]; }
    }
  }

  lemma AllOwnCons(w: World, id: seq<Event>, rest: seq<seq<Event>>)
    requires Shaped(w)
    ensures AllOwn(w, [id] + rest) <==> OwnId(w, id) && AllOwn(w, rest)
  {
    hide OwnId;
    var cuts := [id] + rest;
    assert forall i :: 0 <= i < |rest| ==> rest[i] == cuts[i + 1];
    if AllOwn(w, cuts) { assert OwnId(w, cuts[0]); }
  }

  /** Flush after flush over the positions up to `end`. */
  function Drain(front: nat, end: nat): seq<Step>
    decreases if front < end then end - front else 0
  {
    if end <= front then []
    else
      var to := if end - front < Queue.MAX_BATCH_SIZE then end else front + Queue.MAX_BATCH_SIZE;
      Flush(Range(front, to)) + Drain(to, end)
  }

  /** No flush is waiting, and no batch waits to be retried. */
  ghost predicate Settled(w: World) {
    Invariant(w) && !w.waiting && (w.open.Some? ==> w.open.value.to <= w.front)
  }

  lemma SendFreshIff(w: World)
    requires Settled(w) && w.front < |w.pushed|
    ensures Shaped(w) && Next(w) !in w.sent && Next(w) !in w.counted
    ensures Allowed(w, Send) <==> OwnId(w, Content(w, Next(w)))
  {
    NextIsNew(w);
  }

  lemma CutsOf(w: World)
    requires Shaped(w) && w.front < |w.pushed|
    ensures Cut(QueueOf(w)) == [Content(w, Next(w))] + Cut(w.pushed[Next(w).to..])
  {
    var q, n := QueueOf(w), Queue.Least(Queue.MAX_BATCH_SIZE, |QueueOf(w)|);
    assert q[..n] == Content(w, Next(w)) && q[n..] == w.pushed[Next(w).to..];
  }

  lemma FlushedIds(w: World, id: seq<Event>)
    requires Settled(w) && w.front < |w.pushed| && Allowed(w, Send) && Shaped(Flushed(w))
    ensures OwnId(Flushed(w), id) <==> OwnId(w, id) && id != Content(w, Next(w))
  {
    hide Settled, Allowed;
    SendFreshIff(w);
    OnlyOneMore(w, Flushed(w), Next(w), id);
  }

  /** One more batch is sent and counted, under an id of its own. */
  lemma OnlyOneMore(w: World, v: World, m: Range, id: seq<Event>)
    requires Shaped(w) && Shaped(v) && v.pushed == w.pushed && m.from <= m.to <= |w.pushed| && m !in w.sent
    requires v.sent == w.sent + {m} && v.counted == w.counted + [m]
    requires v.ledger == w.ledger[Content(w, m) := w.today]
    ensures OwnId(v, id) <==> OwnId(w, id) && id != Content(w, m)
  {
    assert id in v.ledger <==> id in w.ledger || id == Content(w, m);
    forall a | a in w.sent && a !in w.counted
      ensures a in v.sent && a !in v.counted && Content(v, a) == Content(w, a)
    {
    }
    forall a | a in v.sent && a !in v.counted
      ensures a in w.sent && a !in w.counted && Content(v, a) == Content(w, a)
    {
      assert m in v.counted;
      assert forall k :: 0 <= k < |w.counted| ==> v.counted[k] == w.counted[k];
    }
  }

  lemma FreshCutsStep(w: World)
    requires Settled(w) && w.front < |w.pushed| && Allowed(w, Send) && Settled(Flushed(w))
    ensures Shaped(Flushed(w)) && (FreshCuts(w) <==> FreshCuts(Flushed(w)))
  {
    hide Cut, OwnId, AllOwn, Differ, Settled, Invariant, Allowed, Flushed;
    SettledIsShaped(w);
    SettledIsShaped(Flushed(w));
    SendFreshIff(w);
    CutsOf(w);
    FlushedQueue(w);
    var id, rest := Content(w, Next(w)), Cut(QueueOf(Flushed(w)));
    DifferCons(id, rest);
    AllOwnCons(w, id, rest);
    AllOwnFlushed(w, rest);
  }

  lemma FlushedQueue(w: World)
    requires Shaped(w) && Shaped(Flushed(w))
    ensures QueueOf(Flushed(w)) == w.pushed[Next(w).to..]
  {
  }

  lemma AllOwnFlushed(w: World, cuts: seq<seq<Event>>)
    requires Settled(w) && w.front < |w.pushed| && Allowed(w, Send) && Shaped(Flushed(w))
    ensures AllOwn(Flushed(w), cuts) <==>
            AllOwn(w, cuts) && forall i :: 0 <= i < |cuts| ==> cuts[i] != Content(w, Next(w))
  {
    hide OwnId, Settled, Allowed, Flushed;
    SettledIsShaped(w);
    forall i | 0 <= i < |cuts|
      ensures OwnId(Flushed(w), cuts[i]) <==> OwnId(w, cuts[i]) && cuts[i] != Content(w, Next(w))
    {
      FlushedIds(w, cuts[i]);
    }
  }

  lemma SettledIsShaped(w: World)
    requires Settled(w)
    ensures Shaped(w)
  {
  }

  lemma FlushSettles(w: World)
    requires Settled(w) && w.front < |w.pushed| && Allowed(w, Send)
    ensures Shaped(w) && AllowedRun(w, Flush(Next(w)), {}) && Run(w, Flush(Next(w)), {}) == Flushed(w)
    ensures Settled(Flushed(w))
  {
    hide AllowedRun, Run;
    SendFreshIff(w);
    FlushRun(w);
    RunKeepsInvariant(w, Flush(Next(w)));
  }

  lemma {:induction false} RunsJoin(w: World, first: seq<Step>, rest: seq<Step>)
    requires Shaped(w) && AllowedRun(w, first, {})
    ensures AllowedRun(w, first + rest, {}) <==> AllowedRun(Run(w, first, {}), rest, {})
    ensures AllowedRun(w, first + rest, {}) ==>
              Run(w, first + rest, {}) == Run(Run(w, first, {}), rest, {})
    decreases |first|
  {
    if first == [] {
      assert first + rest == rest;
    } else {
      hide Do, AllowedBut;
      AllowedIsEnabled(w, first[0], {});
      assert (first + rest)[1..] == first[1..] + rest && (first + rest)[0] == first[0];
      RunsJoin(Do(w, first[0]), first[1..], rest);
    }
  }

  /**
   Undisturbed flushes empty the queue within the premises if and only if its batches
   differ from one another and from what the worker has or may still get.
   */
  lemma {:induction false} DrainAllowedIff(w: World)
    requires Settled(w)
    ensures Shaped(w) && (AllowedRun(w, Drain(w.front, |w.pushed|), {}) <==> FreshCuts(w))
    ensures AllowedRun(w, Drain(w.front, |w.pushed|), {}) ==>
              var v := Run(w, Drain(w.front, |w.pushed|), {});
              Settled(v) && v.front == |v.pushed| && v.pushed == w.pushed && v.trimmed == w.trimmed
    decreases |w.pushed| - w.front
  {
    hide AllowedRun, Run, Settled, Allowed, FreshCuts, Invariant;
    SettledIsShaped(w);
    if w.front == |w.pushed| {
      NothingToDrain(w);
    } else {
      SendFreshIff(w);
      var flush, rest := Flush(Next(w)), Drain(Next(w).to, |w.pushed|);
      assert Drain(w.front, |w.pushed|) == flush + rest;
      if Allowed(w, Send) {
        FlushSettles(w);
        FreshCutsStep(w);
        RunsJoin(w, flush, rest);
        DrainAllowedIff(Flushed(w));
      } else {
        StaleFirst(w);
        NotAllowedFirst(w, flush + rest);
      }
    }
  }

  lemma NothingToDrain(w: World)
    requires Settled(w) && w.front == |w.pushed|
    ensures Drain(w.front, |w.pushed|) == [] && Shaped(w) && FreshCuts(w)
    ensures AllowedRun(w, [], {}) && Run(w, [], {}) == w
  {
    assert Cut(QueueOf(w)) == [];
  }

  lemma StaleFirst(w: World)
    requires Shaped(w) && w.front < |w.pushed| && !OwnId(w, Content(w, Next(w)))
    ensures !FreshCuts(w)
  {
    hide OwnId, Cut;
    CutsOf(w);
    assert Cut(QueueOf(w))[0] == Content(w, Next(w));
  }

  lemma NotAllowedFirst(w: World, steps: seq<Step>)
    requires Shaped(w) && steps != [] && !Allowed(w, steps[0])
    ensures !AllowedRun(w, steps, {})
  {
  }

  /** Then every event not trimmed has been counted exactly once. */
  lemma DrainCountsEverything(w: World, p: nat)
    requires Settled(w) && FreshCuts(w) && p < |w.pushed| && p !in w.trimmed
    ensures AllowedRun(w, Drain(w.front, |w.pushed|), {})
    ensures Times(Run(w, Drain(w.front, |w.pushed|), {}).counted, p) == 1
  {
    hide AllowedRun, Run, Times, FreshCuts;
    DrainAllowedIff(w);
    CountsOnce(Run(w, Drain(w.front, |w.pushed|), {}), p);
  }
}

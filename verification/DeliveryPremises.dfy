/**
 The premises of exactly-once delivery are exact: a step that breaks one can be
 continued, by steps that meet them all, to a state where some event is miscounted.
 Each premise is a guard on the step, and each has a condition a user can see.
 */
module DeliveryPremises {
  import opened Texts
  import Queue = TelemetryQueue
  import opened Delivery

  const EVERY: set<Premise> := {Trimming, Retry, Freshness, Window}

  // ---- Runs and counts ------------------------------------------------------

  lemma RunStep(w: World, s: Step, rest: seq<Step>, waived: set<Premise>)
    requires Shaped(w) && AllowedBut(w, s, waived) && AllowedRun(Do(w, s), rest, waived)
    ensures AllowedRun(w, [s] + rest, waived)
    ensures Run(w, [s] + rest, waived) == Run(Do(w, s), rest, waived)
  {
    assert ([s] + rest)[1..] == rest;
  }

  lemma NoSteps(w: World, waived: set<Premise>)
    requires Shaped(w)
    ensures AllowedRun(w, [], waived) && Run(w, [], waived) == w
  {
  }

  lemma AllowedIsEnabled(w: World, s: Step, waived: set<Premise>)
    requires Shaped(w) && AllowedBut(w, s, waived)
    ensures Enabled(w, s)
  {
  }

  lemma OneStep(w: World, s: Step, waived: set<Premise>)
    requires Shaped(w) && AllowedBut(w, s, waived)
    ensures AllowedRun(w, [s], waived) && Run(w, [s], waived) == Do(w, s)
  {
    hide *;
    AllowedIsEnabled(w, s, waived);
    NoSteps(Do(w, s), waived);
    RunStep(w, s, [], waived);
    assert [s] + [] == [s];
  }

  /** Waiving more premises allows the same runs and more. */
  lemma {:induction false} WaiveMore(w: World, steps: seq<Step>, few: set<Premise>, more: set<Premise>)
    requires Shaped(w) && AllowedRun(w, steps, few) && few <= more
    ensures AllowedRun(w, steps, more) && Run(w, steps, more) == Run(w, steps, few)
    decreases |steps|
  {
    if steps != [] {
      hide Do, FrontHolds, RetryUnchanged, FreshId, RowStillThere;
      WaiveMore(Do(w, steps[0]), steps[1..], few, more);
    }
  }

  /** A breaking step first, then steps that meet every premise. */
  lemma BreakThen(w: World, s: Step, rest: seq<Step>, waived: set<Premise>)
    requires Shaped(w) && AllowedBut(w, s, waived) && AllowedRun(Do(w, s), rest, {})
    ensures AllowedRun(w, [s] + rest, waived)
    ensures Run(w, [s] + rest, waived) == Run(Do(w, s), rest, {})
  {
    hide *;
    AllowedIsEnabled(w, s, waived);
    WaiveMore(Do(w, s), rest, {}, waived);
    RunStep(w, s, rest, waived);
  }

  lemma {:induction false} TimesCovered(counted: seq<Range>, m: Range, p: nat)
    requires m in counted && Covers(m, p)
    ensures Times(counted, p) >= 1
    decreases |counted|
  {
    var last := |counted| - 1;
    if counted[last] != m {
      assert m in counted[..last];
      TimesCovered(counted[..last], m, p);
    }
  }

  lemma InvariantIsShaped(w: World)
    requires Invariant(w)
    ensures Shaped(w) && forall m :: m in w.counted ==> m in w.sent
  {
  }

  // ---- Window: a replay after its row is gone --------------------------------

  /** A counted batch that arrives after its row is gone is counted again, every event of it. */
  lemma ExpiredReplayCountsTwice(w: World, m: Range, p: nat)
    requires Invariant(w) && m in w.counted && Content(w, m) !in w.ledger && Covers(m, p)
    ensures AllowedRun(w, [Arrive(m)], {Window})
    ensures Times(Run(w, [Arrive(m)], {Window}).counted, p) >= 2
  {
    OneStep(w, Arrive(m), {Window});
    CountingRecords(w, m);
    TimesCovered(w.counted, m, p);
    TimesAppend(w.counted, m, p);
  }

  /** The job forgets a row exactly when its day is more than 30 days back. */
  lemma PrunedIff(w: World, m: Range)
    requires Invariant(w) && m in w.counted
    ensures Content(w, m) in w.received
    ensures Content(w, m) in Do(w, Prune).ledger <==> w.received[Content(w, m)] >= w.today - LEDGER_DAYS
  {
    assert m in w.sent;
  }

  /** From any state: once a counted batch's last row is older than 30 days, pruning lets it count twice. */
  lemma LateReplayCountsTwice(w: World, m: Range, p: nat)
    requires Invariant(w) && m in w.counted && Content(w, m) in w.received && Covers(m, p)
    requires w.received[Content(w, m)] < w.today - LEDGER_DAYS
    ensures AllowedRun(w, [Prune, Arrive(m)], {Window})
    ensures Times(Run(w, [Prune, Arrive(m)], {Window}).counted, p) >= 2
  {
    hide Invariant, AllowedRun, Run, Times;
    InvariantIsShaped(w);
    var v := Do(w, Prune);
    PrunedIff(w, m);
    StepKeepsInvariant(w, Prune);
    assert Content(v, m) == Content(w, m);
    ExpiredReplayCountsTwice(v, m, p);
    RunStep(w, Prune, [Arrive(m)], {Window});
    assert [Prune] + [Arrive(m)] == [Prune, Arrive(m)];
  }

  /** The condition a user sees: replays within 30 days of the last receipt find their row. */
  lemma WithinDaysRowStays(w: World, m: Range)
    requires Invariant(w) && m in w.sent
    requires Content(w, m) in w.received ==> w.today <= w.received[Content(w, m)] + LEDGER_DAYS
    ensures RowStillThere(w, Arrive(m))
  {
  }

  // ---- Freshness: an id the ledger already holds ------------------------------

  /** The first position no batch has covered yet, where every batch sent ends at the latest. */
  function FirstUnsent(w: World): nat {
    if w.open.Some? && w.front < w.open.value.to then w.open.value.to else w.front
  }

  lemma NextIsNew(w: World)
    requires Invariant(w) && Enabled(w, Send) && w.open != Some(Next(w))
    ensures Next(w) !in w.sent && w.front <= FirstUnsent(w) < Next(w).to
    ensures forall a :: a in w.sent ==> a.to <= FirstUnsent(w)
  {
  }

  /** Another batch whose row is held, or that will get one when it arrives, has the id of the next. */
  ghost predicate SharesId(w: World, other: Range)
    requires Shaped(w)
  {
    && other in w.sent && other != Next(w) && Content(w, other) == Content(w, Next(w))
    && (other in w.counted ==> Content(w, other) in w.ledger)
  }

  /** An id is not fresh if and only if another such batch has it. */
  lemma FreshIff(w: World)
    requires Invariant(w) && Enabled(w, Send) && w.open != Some(Next(w))
    ensures FreshId(w, Send) <==> !(exists other :: SharesId(w, other))
  {
    NextIsNew(w);
    var id := Content(w, Next(w));
    if id in w.ledger {
      var other :| other in w.counted && other in w.sent && Content(w, other) == id;
      assert SharesId(w, other);
    } else if other :| other in w.sent && other !in w.counted && other != Next(w) && Content(w, other) == id {
      assert SharesId(w, other);
    }
  }

  /**
   A new batch under an id that is not its own is taken for a replay of the other: once
   it is confirmed, an event no batch carried before is gone uncounted.
   */
  lemma SharedIdGoesUncounted(w: World, other: Range)
    requires Invariant(w) && Enabled(w, Send) && w.open != Some(Next(w)) && SharesId(w, other)
    ensures var rest := (if other in w.counted then [] else [Arrive(other)]) + [Arrive(Next(w)), Confirm];
            AllowedRun(Do(w, Send), rest, {}) &&
            var v, p := Run(Do(w, Send), rest, {}), FirstUnsent(w);
            w.front <= p < v.front && p !in v.trimmed && Times(v.counted, p) == 0
  {
    hide AllowedRun, Run, Times, Dropped, Positions, FirstUnsent, Invariant;
    InvariantIsShaped(w);
    NextIsNew(w);
    SentAs(w);
    var m, w1 := Next(w), Do(w, Send);
    assert Content(w1, m) == Content(w, m) && Content(w1, other) == Content(w, other);
    if other in w.counted {
      TakenForReplay(w1, m, FirstUnsent(w));
      assert [] + [Arrive(m), Confirm] == [Arrive(m), Confirm];
    } else {
      CountingRecords(w1, other);
      var w2 := Do(w1, Arrive(other));
      assert Content(w2, m) == Content(w1, m);
      TakenForReplay(w2, m, FirstUnsent(w));
      RunStep(w1, Arrive(other), [Arrive(m), Confirm], {});
    }
  }

  lemma SentAs(w: World)
    requires Invariant(w) && Enabled(w, Send)
    ensures Do(w, Send) == w.(sent := w.sent + {Next(w)}, waiting := true, open := Some(Next(w)))
    ensures Next(w).from == w.front && forall p :: p in w.trimmed ==> p < w.front
    ensures forall a :: a in w.counted ==> a in w.sent
    ensures forall a :: a in w.sent && a !in w.counted ==> Content(w, a) !in w.ledger
  {
  }

  lemma TakenForReplay(w: World, m: Range, p: nat)
    requires Shaped(w) && w.waiting && w.open == Some(m) && m.from == w.front && m !in w.counted
    requires Content(w, m) in w.ledger
    requires w.front <= p < m.to && p !in w.trimmed && forall a :: a in w.counted ==> a.to <= p
    ensures AllowedRun(w, [Arrive(m), Confirm], {})
    ensures var v := Run(w, [Arrive(m), Confirm], {});
            p < v.front && p !in v.trimmed && Times(v.counted, p) == 0
  {
    hide AllowedRun, Run, Times;
    ReplayOnlyAnswers(w, m);
    OneStep(Do(w, Arrive(m)), Confirm, {});
    RunStep(w, Arrive(m), [Confirm], {});
    assert [Arrive(m)] + [Confirm] == [Arrive(m), Confirm];
    TimesNone(w.counted, p);
  }

  /** The condition a user sees: batches of distinct contents have fresh ids. */
  lemma DistinctContentsAreFresh(w: World)
    requires Invariant(w) && Enabled(w, Send)
    requires forall m :: m in w.sent && Content(w, m) == Content(w, Next(w)) ==> m == Next(w)
    ensures FreshId(w, Send)
  {
  }

  // ---- Retry: another batch in place of an unconfirmed one --------------------

  /** Retried as another batch with an id of its own, the front event is counted twice. */
  lemma ChangedRetryCountsTwice(w: World)
    requires Invariant(w) && Enabled(w, Send) && !RetryUnchanged(w, Send) && FreshId(w, Send)
    ensures var rest := (if w.open.value in w.counted then [] else [Arrive(w.open.value)]) + [Arrive(Next(w))];
            AllowedRun(Do(w, Send), rest, {}) &&
            Times(Run(Do(w, Send), rest, {}).counted, w.front) >= 2
  {
    hide AllowedRun, Run, Times, Dropped, Positions;
    NextIsNew(w);
    var old_, m, w1 := w.open.value, Next(w), Do(w, Send);
    assert m !in w.counted;
    assert Content(w1, m) == Content(w, m) && Content(w1, old_) == Content(w, old_);
    if old_ in w.counted {
      CountedThenNext(w1, old_, m, w.front);
      assert [] + [Arrive(m)] == [Arrive(m)];
    } else {
      CountingRecords(w1, old_);
      var w2 := Do(w1, Arrive(old_));
      assert Content(w2, m) == Content(w1, m);
      CountedThenNext(w2, old_, m, w.front);
      RunStep(w1, Arrive(old_), [Arrive(m)], {});
    }
  }

  lemma CountedThenNext(w: World, a: Range, m: Range, p: nat)
    requires Shaped(w) && a in w.counted && m in w.sent && m !in w.counted && Content(w, m) !in w.ledger
    requires Covers(a, p) && Covers(m, p)
    ensures AllowedRun(w, [Arrive(m)], {}) && Times(Run(w, [Arrive(m)], {}).counted, p) >= 2
  {
    OneStep(w, Arrive(m), {});
    CountingRecords(w, m);
    TimesCovered(w.counted, a, p);
    TimesAppend(w.counted, m, p);
  }

  // ---- Trimming: the queue's own cap under an unconfirmed batch ----------------

  /** The push trims an event of the unconfirmed batch, which is or will be counted all the same. */
  lemma TrimUnderOpenCountsTrimmed(w: World, events: seq<Event>)
    requires Invariant(w) && w.open.Some? && Covers(w.open.value, w.front) && Dropped(w, events) > 0
    ensures var rest := if w.open.value in w.counted then [] else [Arrive(w.open.value)];
            AllowedRun(Do(w, Push(events)), rest, {}) &&
            var v := Run(Do(w, Push(events)), rest, {});
            w.front in v.trimmed && Times(v.counted, w.front) >= 1
  {
    hide Dropped, Positions;
    var m, v := w.open.value, Do(w, Push(events));
    PushDoes(w, events);
    ContentStays(w, events, m);
    if m in w.counted {
      NoSteps(v, {});
      TimesCovered(w.counted, m, w.front);
    } else {
      OneStep(v, Arrive(m), {});
      CountingRecords(v, m);
      TimesAppend(w.counted, m, w.front);
    }
  }

  /** Gone from the queue, neither trimmed nor counted. */
  predicate LostEvent(w: World, p: nat) {
    p < w.front && p !in w.trimmed && Times(w.counted, p) == 0
  }

  /**
   What a push and then the confirmation lose, exactly: the events behind the batch that
   the removal takes because trimming moved the front. When the batch still is at the
   front, or nothing is queued, there are none.
   */
  lemma TrimWhileWaitingLosesIff(w: World, events: seq<Event>, p: nat)
    requires Invariant(w) && w.waiting && w.open.value in w.answered
    ensures AllowedRun(w, [Push(events), Confirm], {Trimming})
    ensures var m, front, end := w.open.value, w.front + Dropped(w, events), |w.pushed| + |events|;
            LostEvent(Run(w, [Push(events), Confirm], {Trimming}), p) <==>
            m.to <= p && front <= p < end && p < front + (m.to - m.from)
  {
    hide Dropped, AllowedRun, Run, Times, Invariant;
    InvariantIsShaped(w);
    PushThenConfirm(w, events);
    CountedBefore(w, p);
  }

  lemma PushThenConfirm(w: World, events: seq<Event>)
    requires Shaped(w) && w.waiting && w.open.value in w.answered
    ensures AllowedRun(w, [Push(events), Confirm], {Trimming})
    ensures var m, front, end := w.open.value, w.front + Dropped(w, events), |w.pushed| + |events|;
            var v := Run(w, [Push(events), Confirm], {Trimming});
            v.pushed == w.pushed + events &&
            v.front == (if front + (m.to - m.from) < end then front + (m.to - m.from) else end) &&
            v.counted == w.counted && forall p :: p in v.trimmed <==> p in w.trimmed || w.front <= p < front
  {
    hide Dropped, Positions, AllowedRun, Run;
    var v := Do(w, Push(events));
    PushDoes(w, events);
    OneStep(v, Confirm, {});
    BreakThen(w, Push(events), [Confirm], {Trimming});
    assert [Push(events)] + [Confirm] == [Push(events), Confirm];
  }

  /** While an answered batch is open: which events are counted. */
  lemma CountedBefore(w: World, p: nat)
    requires Invariant(w) && w.waiting && w.open.value in w.answered
    ensures w.open.value.from <= w.front <= |w.pushed|
    ensures w.open.value.from < w.front ==> w.front == |w.pushed|
    ensures w.open.value.to <= p && w.front <= p ==> Times(w.counted, p) == 0
    ensures p < w.front && p !in w.trimmed ==> Times(w.counted, p) == 1
    ensures w.front <= p < w.open.value.to ==> Times(w.counted, p) >= 1
    ensures w.front <= p ==> p !in w.trimmed
  {
    hide Times, Identified, Remembers;
    if w.open.value.to <= p && w.front <= p { TimesNone(w.counted, p); }
    if w.front <= p < w.open.value.to { TimesCovered(w.counted, w.open.value, p); }
    CountsOnce(w, p);
  }

  /** So some event is lost if and only if the push broke the premise. */
  lemma TrimWhileWaitingLosesSomeIff(w: World, events: seq<Event>)
    requires Invariant(w) && w.waiting && w.open.value in w.answered
    ensures AllowedRun(w, [Push(events), Confirm], {Trimming})
    ensures (exists p :: LostEvent(Run(w, [Push(events), Confirm], {Trimming}), p)) <==>
            !FrontHolds(w, Push(events))
  {
    hide AllowedRun, Run, Dropped, LostEvent;
    var m, front, end := w.open.value, w.front + Dropped(w, events), |w.pushed| + |events|;
    forall p: nat
      ensures AllowedRun(w, [Push(events), Confirm], {Trimming})
      ensures LostEvent(Run(w, [Push(events), Confirm], {Trimming}), p) <==>
              m.to <= p && front <= p < end && p < front + (m.to - m.from)
    {
      TrimWhileWaitingLosesIff(w, events, p);
    }
    TrimWhileWaitingLosesIff(w, events, 0);
    if !FrontHolds(w, Push(events)) {
      if Dropped(w, events) > 0 { DropsOnlyForMore(w, events); }
      assert LostEvent(Run(w, [Push(events), Confirm], {Trimming}), if m.to < front then front else m.to);
    }
  }

  /** The condition a user sees: a push trims nothing if and only if queue and push fit the caps together. */
  lemma NothingDroppedIff(w: World, events: seq<Event>)
    requires Shaped(w) && Queue.WithinCaps(QueueOf(w))
    ensures Dropped(w, events) == 0 <==> Queue.WithinCaps(QueueOf(w) + events)
  {
    hide Queue.WithinCaps, Queue.Trim;
    var all := QueueOf(w) + events;
    if events == [] {
      assert all == QueueOf(w);
    } else {
      var n := Queue.TrimIsSuffix(all);
      Queue.TrimFits(all);
      if n == 0 { assert all[0..] == all; }
      if Queue.WithinCaps(all) { Queue.TrimOfFitting(all); }
    }
  }

  /** Whatever the run, the queue is within its caps. */
  lemma {:induction false} QueueStaysWithinCaps(w: World, steps: seq<Step>, waived: set<Premise>)
    requires Shaped(w) && AllowedRun(w, steps, waived) && Queue.WithinCaps(QueueOf(w))
    ensures Queue.WithinCaps(QueueOf(Run(w, steps, waived)))
    decreases |steps|
  {
    if steps != [] {
      hide Queue.WithinCaps, Do, AllowedBut;
      AllowedIsEnabled(w, steps[0], waived);
      StepStaysWithinCaps(w, steps[0]);
      QueueStaysWithinCaps(Do(w, steps[0]), steps[1..], waived);
    }
  }

  lemma StepStaysWithinCaps(w: World, s: Step)
    requires Shaped(w) && Enabled(w, s) && Queue.WithinCaps(QueueOf(w))
    ensures Queue.WithinCaps(QueueOf(Do(w, s)))
  {
    hide Queue.WithinCaps, Queue.Trim, Dropped;
    match s
    case Push(events) =>
      PushIsQueuePush(w, events);
      Queue.TrimFits(QueueOf(w) + events);
    case Confirm =>
      ConfirmIsRemove(w);
      var n := Queue.Least(w.open.value.to - w.open.value.from, |QueueOf(w)|);
      SuffixFits(QueueOf(w), n);
    case _ =>
  }

  lemma SuffixFits(q: seq<Event>, n: nat)
    requires Queue.WithinCaps(q) && n <= |q|
    ensures Queue.WithinCaps(q[n..])
  {
    Queue.SerializedSize(q);
    Queue.SerializedSize(q[n..]);
    Queue.TotalSizeConcat(q[..n], q[n..]);
    assert q == q[..n] + q[n..];
    hide Queue.Serialize, Queue.TotalSize;
  }

  // ---- What a retry sends after any number of pushes ----------------------------

  function PushAll(w: World, pushes: seq<Queue.Op>): (v: World)
    requires Shaped(w) && Queue.OnlyPushes(pushes)
    ensures Shaped(v)
    decreases |pushes|
  {
    if pushes == [] then w
    else
      assert pushes[0].Push?;
      PushAll(Do(w, Push(pushes[0].events)), pushes[1..])
  }

  lemma {:induction false} PushAllIsQueue(w: World, pushes: seq<Queue.Op>)
    requires Shaped(w) && Queue.OnlyPushes(pushes)
    ensures QueueOf(PushAll(w, pushes)) == Queue.ApplyAll(QueueOf(w), pushes)
    ensures PushAll(w, pushes).pushed == w.pushed + Queue.Pushed(pushes)
    decreases |pushes|
  {
    hide Do, Queue.Apply;
    if pushes != [] {
      assert pushes[0].Push?;
      var events := pushes[0].events;
      PushDoes(w, events);
      PushIsQueuePush(w, events);
      PushAllIsQueue(Do(w, Push(events)), pushes[1..]);
      assert pushes[0] == Queue.Push(events);
      assert (w.pushed + events) + Queue.Pushed(pushes[1..]) == w.pushed + (events + Queue.Pushed(pushes[1..]));
    }
  }

  lemma {:induction false} NothingTrimmedIff(w: World, pushes: seq<Queue.Op>)
    requires Shaped(w) && Queue.OnlyPushes(pushes) && Queue.WithinCaps(QueueOf(w))
    ensures w.front <= PushAll(w, pushes).front
    ensures PushAll(w, pushes).front == w.front <==> Queue.WithinCaps(QueueOf(w) + Queue.Pushed(pushes))
  {
    var q, v := QueueOf(w), PushAll(w, pushes);
    PushAllIsQueue(w, pushes);
    hide PushAll, Queue.ApplyAll, Queue.Pushed, Queue.Removed, Queue.WithinCaps;
    Queue.QueueConserves(q, pushes);
    Queue.FitsThroughout(q, pushes);
    var all, now := q + Queue.Pushed(pushes), Queue.ApplyAll(q, pushes);
    assert |all| == |Queue.Removed(q, pushes)| + |now|;
    if |Queue.Removed(q, pushes)| == 0 { assert all == now; }
  }

  /**
   When are the very same events retried, however many pushes came since? Exactly when
   the queue and all of them fit the caps together, and either nothing was pushed or the
   batch was full.
   */
  lemma RetryUnchangedIff(w: World, pushes: seq<Queue.Op>)
    requires Shaped(w) && w.front < |w.pushed| && Queue.OnlyPushes(pushes) && Queue.WithinCaps(QueueOf(w))
    ensures Next(PushAll(w, pushes)) == Next(w) <==>
            Queue.WithinCaps(QueueOf(w) + Queue.Pushed(pushes)) &&
            (Queue.Pushed(pushes) == [] || Next(w).to - Next(w).from == Queue.MAX_BATCH_SIZE)
  {
    PushAllIsQueue(w, pushes);
    NothingTrimmedIff(w, pushes);
    hide PushAll, Queue.Pushed, Queue.WithinCaps;
  }

  /**
   When is the batch id of the retry the same, however many pushes came since? If nothing
   was trimmed, exactly when nothing was pushed or the batch was full; otherwise exactly
   when the batch behind the trimmed events is as long as the old one and repeats it.
   */
  lemma RetryKeepsIdIff(w: World, pushes: seq<Queue.Op>)
    requires Shaped(w) && w.front < |w.pushed| && Queue.OnlyPushes(pushes) && Queue.WithinCaps(QueueOf(w))
    ensures var v, all := PushAll(w, pushes), QueueOf(w) + Queue.Pushed(pushes);
            var n, size := |all| - |QueueOf(v)|, Next(w).to - Next(w).from;
            0 <= n &&
            (n == 0 <==> Queue.WithinCaps(all)) &&
            (Content(v, Next(v)) == Content(w, Next(w)) <==>
               if n == 0 then Queue.Pushed(pushes) == [] || size == Queue.MAX_BATCH_SIZE
               else (size == Queue.MAX_BATCH_SIZE || size == |QueueOf(v)|) &&
                    n + size <= |all| && all[n..n + size] == all[..size])
  {
    hide PushAll, Queue.Pushed, Queue.WithinCaps, Next, Content, QueueOf, Queue.ApplyAll;
    PushAllIsQueue(w, pushes);
    NothingTrimmedIff(w, pushes);
    var q, v, all := QueueOf(w), PushAll(w, pushes), QueueOf(w) + Queue.Pushed(pushes);
    QueueIsTail(w, v, Queue.Pushed(pushes));
    NextIsFront(w);
    NextIsFront(v);
    SameFrontIff(q, all, |all| - |QueueOf(v)|);
    assert |all| == |q| <==> Queue.Pushed(pushes) == [];
  }

  lemma QueueIsTail(w: World, v: World, more: seq<Event>)
    requires Shaped(w) && Shaped(v) && v.pushed == w.pushed + more && w.front <= v.front
    ensures var all := QueueOf(w) + more;
            |QueueOf(v)| <= |all| && QueueOf(v) == all[|all| - |QueueOf(v)|..] &&
            |all| - |QueueOf(v)| == v.front - w.front
    ensures w.front < |w.pushed| ==> QueueOf(w) != []
  {
  }

  lemma NextIsFront(w: World)
    requires Shaped(w)
    ensures Next(w).to - Next(w).from == Queue.Least(Queue.MAX_BATCH_SIZE, |QueueOf(w)|)
    ensures 0 <= Next(w).to - Next(w).from && Next(w).to <= |w.pushed|
    ensures Content(w, Next(w)) == QueueOf(w)[..Next(w).to - Next(w).from]
  {
  }

  /** The first batch of a queue, and of what is left of a longer one behind `n` events. */
  lemma SameFrontIff(q: seq<Event>, all: seq<Event>, n: nat)
    requires q != [] && q <= all && n <= |all|
    ensures var size := Queue.Least(Queue.MAX_BATCH_SIZE, |q|);
            all[n..][..Queue.Least(Queue.MAX_BATCH_SIZE, |all| - n)] == q[..size] <==>
            if n == 0 then |all| == |q| || size == Queue.MAX_BATCH_SIZE
            else (size == Queue.MAX_BATCH_SIZE || size == |all| - n) &&
                 n + size <= |all| && all[n..n + size] == all[..size]
  {
    var size, size' := Queue.Least(Queue.MAX_BATCH_SIZE, |q|), Queue.Least(Queue.MAX_BATCH_SIZE, |all| - n);
    assert q[..size] == all[..size];
    assert all[n..][..size'] == all[n..n + size'];
    if n == 0 { assert all[..size'] == all[..size] <==> size' == size; }
  }

  // ---- The premises are exact -------------------------------------------------

  /** Whatever happens next within the premises, every event is counted right. */
  ghost predicate Safe(w: World)
    requires Shaped(w)
  {
    forall rest :: AllowedRun(w, rest, {}) ==> ExactlyOnce(Run(w, rest, {}))
  }

  lemma InvariantIsSafe(w: World)
    requires Invariant(w)
    ensures Safe(w)
  {
    hide Invariant, AllowedRun, Run, ExactlyOnce;
    InvariantIsShaped(w);
    forall rest | AllowedRun(w, rest, {}) ensures ExactlyOnce(Run(w, rest, {})) {
      RunKeepsInvariant(w, rest);
      InvariantCountsOnce(Run(w, rest, {}));
    }
  }

  lemma MiscountedIsUnsafe(w: World, rest: seq<Step>, p: nat)
    requires Shaped(w) && AllowedRun(w, rest, {})
    requires p < |Run(w, rest, {}).pushed| && !CountedRight(Run(w, rest, {}), p)
    ensures !Safe(w)
  {
  }

  lemma {:induction false} PushedGrows(w: World, steps: seq<Step>)
    requires Shaped(w) && AllowedRun(w, steps, {})
    ensures |w.pushed| <= |Run(w, steps, {}).pushed|
    decreases |steps|
  {
    if steps != [] { PushedGrows(Do(w, steps[0]), steps[1..]); }
  }

  lemma BadPushIsUnsafe(w: World, events: seq<Event>)
    requires Invariant(w) && !Allowed(w, Push(events))
    ensures !Safe(Do(w, Push(events)))
  {
    hide Dropped, Safe, Positions, AllowedRun, Run, Times;
    var m, v := w.open.value, Do(w, Push(events));
    PushDoes(w, events);
    ContentStays(w, events, m);
    if Dropped(w, events) > 0 { DropsOnlyForMore(w, events); }
    var p := if m.to < v.front then v.front else m.to;
    if m in w.counted {
      ConfirmLoses(v, p);
      MiscountedIsUnsafe(v, [Confirm], p);
    } else {
      CountingRecords(v, m);
      ConfirmLoses(Do(v, Arrive(m)), p);
      RunStep(v, Arrive(m), [Confirm], {});
      MiscountedIsUnsafe(v, [Arrive(m)] + [Confirm], p);
    }
  }

  lemma ConfirmLoses(w: World, p: nat)
    requires Shaped(w) && w.waiting && w.open.value in w.answered && w.open.value.from < w.front < |w.pushed|
    requires p == if w.open.value.to < w.front then w.front else w.open.value.to
    requires p < |w.pushed| && p !in w.trimmed && forall a :: a in w.counted ==> a.to <= p
    ensures AllowedRun(w, [Confirm], {})
    ensures p < |Run(w, [Confirm], {}).pushed| && !CountedRight(Run(w, [Confirm], {}), p)
  {
    hide AllowedRun, Run, Times;
    OneStep(w, Confirm, {});
    TimesNone(w.counted, p);
  }

  lemma BadSendIsUnsafe(w: World)
    requires Invariant(w) && Enabled(w, Send) && !Allowed(w, Send)
    ensures !Safe(Do(w, Send))
  {
    hide Safe, AllowedRun, Run, Times, SharesId, Invariant;
    InvariantIsShaped(w);
    BadSendIsNew(w);
    var v := Do(w, Send);
    if FreshId(w, Send) {
      ChangedRetryCountsTwice(w);
      var rest := (if w.open.value in w.counted then [] else [Arrive(w.open.value)]) + [Arrive(Next(w))];
      PushedGrows(v, rest);
      MiscountedIsUnsafe(v, rest, w.front);
    } else {
      FreshIff(w);
      var other :| SharesId(w, other);
      SharedIdGoesUncounted(w, other);
      NextIsNew(w);
      var rest := (if other in w.counted then [] else [Arrive(other)]) + [Arrive(Next(w)), Confirm];
      PushedGrows(v, rest);
      MiscountedIsUnsafe(v, rest, FirstUnsent(w));
    }
  }

  lemma BadSendIsNew(w: World)
    requires Invariant(w) && Enabled(w, Send) && !Allowed(w, Send)
    ensures w.open != Some(Next(w))
  {
  }

  lemma BadArriveIsUnsafe(w: World, m: Range)
    requires Invariant(w) && m in w.sent && !Allowed(w, Arrive(m))
    ensures !Safe(Do(w, Arrive(m)))
  {
    hide Safe, AllowedRun, Run;
    var v := Do(w, Arrive(m));
    CountingRecords(w, m);
    TimesCovered(w.counted, m, m.from);
    TimesAppend(w.counted, m, m.from);
    NoSteps(v, {});
    MiscountedIsUnsafe(v, [], m.from);
  }

  /**
   Step by step the premises are exact: from a good state, a possible step keeps every
   continuation within the premises counting right if and only if it meets them.
   */
  lemma StepIsSafeIff(w: World, s: Step)
    requires Invariant(w) && Enabled(w, s)
    ensures Safe(Do(w, s)) <==> Allowed(w, s)
  {
    if Allowed(w, s) {
      hide *;
      StepKeepsInvariant(w, s);
      InvariantIsSafe(Do(w, s));
    } else {
      hide Invariant, Safe, Do;
      match s
      case Push(events) => BadPushIsUnsafe(w, events);
      case Send => BadSendIsUnsafe(w);
      case Arrive(m) => BadArriveIsUnsafe(w, m);
      case _ =>
    }
  }

  /** In particular, when no flush waits for an answer, a push may trim what it likes. */
  lemma TrimAfterGivingUpIsSafe(w: World, events: seq<Event>)
    requires Invariant(w) && !w.waiting
    ensures Safe(Do(w, Push(events)))
  {
    hide Safe, Invariant, Do, Dropped;
    InvariantIsShaped(w);
    StepIsSafeIff(w, Push(events));
  }

  /** No state along a run of possible steps is doomed. */
  ghost predicate SafeThroughout(w: World, steps: seq<Step>)
    requires Shaped(w) && AllowedRun(w, steps, EVERY)
    decreases |steps|
  {
    Safe(w) && (steps != [] ==> SafeThroughout(Do(w, steps[0]), steps[1..]))
  }

  lemma {:induction false} SafeThroughoutIff(w: World, steps: seq<Step>)
    requires Invariant(w) && AllowedRun(w, steps, EVERY)
    ensures SafeThroughout(w, steps) <==> AllowedRun(w, steps, {})
    decreases |steps|
  {
    hide Invariant, Do, Safe, FrontHolds, RetryUnchanged, FreshId, RowStillThere;
    InvariantIsShaped(w);
    InvariantIsSafe(w);
    if steps != [] {
      var s, rest := steps[0], steps[1..];
      StepIsSafeIff(w, s);
      if Allowed(w, s) {
        StepKeepsInvariant(w, s);
        SafeThroughoutIff(Do(w, s), rest);
      } else {
        SafeFirst(Do(w, s), rest);
      }
    }
  }

  lemma SafeFirst(w: World, steps: seq<Step>)
    requires Shaped(w) && AllowedRun(w, steps, EVERY)
    ensures SafeThroughout(w, steps) ==> Safe(w)
  {
  }

  /**
   The exact premises. Of all runs of possible steps, with requests and answers lost,
   late or repeated at will, those on which no state is doomed to miscount are exactly
   those that never move the front under a waiting flush unless the queue empties, retry
   a batch unchanged unless trimming took all of it, send uncounted batches under ids of
   their own, and see counted batches again only while their rows are there.
   */
  lemma PremisesAreExact(steps: seq<Step>)
    requires AllowedRun(Start(), steps, EVERY)
    ensures SafeThroughout(Start(), steps) <==> AllowedRun(Start(), steps, {})
  {
    hide AllowedRun, SafeThroughout;
    StartIsGood();
    SafeThroughoutIff(Start(), steps);
  }
}

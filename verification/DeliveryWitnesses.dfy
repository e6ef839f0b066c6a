/**
 Runs from the empty queue: one that meets every premise and loses nothing, and for
 each premise one that breaks only it.
 */
module DeliveryWitnesses {
  import opened Texts
  import Queue = TelemetryQueue
  import opened Delivery
  import opened DeliveryPremises

  const A: Event := [1]
  const B: Event := [2]

  // ---- Small queues ---------------------------------------------------------

  lemma {:induction false} OneByteEach(events: seq<Event>)
    requires forall k :: 0 <= k < |events| ==> |events[k]| == 1
    ensures Queue.TotalSize(events) == |events|
    decreases |events|
  {
    if events != [] { OneByteEach(events[1..]); }
  }

  lemma OneByteEventsFit(events: seq<Event>)
    requires forall k :: 0 <= k < |events| ==> |events[k]| == 1
    ensures Queue.WithinCaps(events) <==> |events| <= Queue.MAX_EVENTS
  {
    OneByteEach(events);
    Queue.SerializedSize(events);
    hide Queue.Serialize, Queue.TotalSize;
  }

  /** A push that fits trims nothing. */
  lemma FittingPush(w: World, events: seq<Event>)
    requires Shaped(w) && Queue.WithinCaps(QueueOf(w) + events)
    ensures Dropped(w, events) == 0 && Do(w, Push(events)) == w.(pushed := w.pushed + events)
  {
    hide Queue.WithinCaps, Queue.Trim;
    Queue.TrimOfFitting(QueueOf(w) + events);
    var v := Do(w, Push(events));
    PushDoes(w, events);
    assert v.trimmed == w.trimmed;
  }

  lemma SmallPush(w: World, e: Event)
    requires Shaped(w) && |QueueOf(w)| < 10 && |e| == 1
    requires forall k :: 0 <= k < |QueueOf(w)| ==> |QueueOf(w)[k]| == 1
    ensures Dropped(w, [e]) == 0 && Do(w, Push([e])) == w.(pushed := w.pushed + [e])
  {
    OneByteEventsFit(QueueOf(w) + [e]);
    FittingPush(w, [e]);
  }

  // ---- Joining runs ---------------------------------------------------------

  lemma {:induction false} JoinRuns(w: World, first: seq<Step>, rest: seq<Step>, waived: set<Premise>)
    requires Shaped(w) && AllowedRun(w, first, waived) && AllowedRun(Run(w, first, waived), rest, waived)
    ensures AllowedRun(w, first + rest, waived)
    ensures Run(w, first + rest, waived) == Run(Run(w, first, waived), rest, waived)
    decreases |first|
  {
    if first == [] {
      assert first + rest == rest;
    } else {
      hide Do, AllowedBut;
      JoinRuns(Do(w, first[0]), first[1..], rest, waived);
      RunStep(w, first[0], first[1..] + rest, waived);
      assert first + rest == [first[0]] + (first[1..] + rest);
    }
  }

  /** A run within the premises, then one that waives some. */
  lemma ThenWaive(w: World, first: seq<Step>, rest: seq<Step>, waived: set<Premise>)
    requires Shaped(w) && AllowedRun(w, first, {}) && AllowedRun(Run(w, first, {}), rest, waived)
    ensures AllowedRun(w, first + rest, waived)
    ensures Run(w, first + rest, waived) == Run(Run(w, first, {}), rest, waived)
  {
    hide *;
    WaiveMore(w, first, {}, waived);
    JoinRuns(w, first, rest, waived);
  }

  // ---- A lost answer --------------------------------------------------------

  /** The first batch is pushed, sent and counted, and its answer is lost. */
  const LOST_ACK: seq<Step> := [Push([A]), Send, Arrive(Range(0, 1)), GiveUp]

  const AFTER_LOST_ACK :=
    World([A], 0, {Range(0, 1)}, false, Some(Range(0, 1)), map[[A] := 0], {Range(0, 1)}, 0, [Range(0, 1)],
          map[[A] := 0], {})

  lemma LostAck()
    ensures Shaped(Start()) && AllowedRun(Start(), LOST_ACK, {}) && Run(Start(), LOST_ACK, {}) == AFTER_LOST_ACK
    ensures Invariant(AFTER_LOST_ACK)
  {
    hide Dropped, AllowedRun, Run, Invariant;
    StartIsGood();
    InvariantIsShaped(Start());
    SmallPush(Start(), A);
    var w1 := Do(Start(), Push([A]));
    assert w1 == World([A], 0, {}, false, None, map[], {}, 0, [], map[], {});
    var w2 := Do(w1, Send);
    assert w2 == World([A], 0, {Range(0, 1)}, true, Some(Range(0, 1)), map[], {}, 0, [], map[], {});
    assert Content(w2, Range(0, 1)) == [A];
    var w3 := Do(w2, Arrive(Range(0, 1)));
    assert Do(w3, GiveUp) == AFTER_LOST_ACK;
    OneStep(w3, GiveUp, {});
    RunStep(w2, Arrive(Range(0, 1)), [GiveUp], {});
    RunStep(w1, Send, [Arrive(Range(0, 1))] + [GiveUp], {});
    RunStep(Start(), Push([A]), [Send] + ([Arrive(Range(0, 1))] + [GiveUp]), {});
    assert LOST_ACK == [Push([A])] + ([Send] + ([Arrive(Range(0, 1))] + [GiveUp]));
    RunKeepsInvariant(Start(), LOST_ACK);
  }

  /** The retry is answered and the batch removed. */
  const RETRY: seq<Step> := [Send, Arrive(Range(0, 1)), Confirm]

  const AFTER_RETRY :=
    World([A], 1, {Range(0, 1)}, false, None, map[[A] := 0], {Range(0, 1)}, 0, [Range(0, 1)], map[[A] := 0], {})

  lemma Retried()
    ensures AllowedRun(Start(), LOST_ACK + RETRY, {}) && Run(Start(), LOST_ACK + RETRY, {}) == AFTER_RETRY
    ensures Invariant(AFTER_RETRY)
  {
    hide AllowedRun, Run, Invariant;
    LostAck();
    InvariantIsShaped(AFTER_LOST_ACK);
    StartIsGood();
    var w1 := Do(AFTER_LOST_ACK, Send);
    assert w1.sent == {Range(0, 1)} && Content(w1, Range(0, 1)) == [A];
    var w2 := Do(w1, Arrive(Range(0, 1)));
    assert w2 == w1.(answered := {Range(0, 1)});
    assert Do(w2, Confirm) == AFTER_RETRY;
    OneStep(w2, Confirm, {});
    RunStep(w1, Arrive(Range(0, 1)), [Confirm], {});
    RunStep(AFTER_LOST_ACK, Send, [Arrive(Range(0, 1))] + [Confirm], {});
    assert RETRY == [Send] + ([Arrive(Range(0, 1))] + [Confirm]);
    JoinRuns(Start(), LOST_ACK, RETRY, {});
    RunKeepsInvariant(Start(), LOST_ACK + RETRY);
  }

  const NEXT_BATCH: seq<Step> := [Push([B]), Send, Arrive(Range(1, 2))]

  lemma NextBatch()
    ensures Shaped(AFTER_RETRY) && AllowedRun(AFTER_RETRY, NEXT_BATCH, {})
    ensures Run(AFTER_RETRY, NEXT_BATCH, {}).counted == [Range(0, 1), Range(1, 2)]
    ensures Run(AFTER_RETRY, NEXT_BATCH, {}).front == 1
  {
    hide Dropped, AllowedRun, Run;
    SmallPush(AFTER_RETRY, B);
    var w1 := Do(AFTER_RETRY, Push([B]));
    assert w1.pushed == [A, B] && Next(w1) == Range(1, 2);
    assert Content(w1, Range(1, 2)) == [B] && [B] !in w1.ledger;
    var w2 := Do(w1, Send);
    assert Content(w2, Range(1, 2)) == [B];
    var w3 := Do(w2, Arrive(Range(1, 2)));
    OneStep(w2, Arrive(Range(1, 2)), {});
    RunStep(w1, Send, [Arrive(Range(1, 2))], {});
    RunStep(AFTER_RETRY, Push([B]), [Send] + [Arrive(Range(1, 2))], {});
    assert NEXT_BATCH == [Push([B])] + ([Send] + [Arrive(Range(1, 2))]);
  }

  /** With every premise met, a lost answer and a repeated request cost nothing. */
  lemma LostAnswerIsHarmless()
    ensures var steps := (LOST_ACK + RETRY) + NEXT_BATCH;
            AllowedRun(Start(), steps, {}) &&
            var w := Run(Start(), steps, {});
            w.front == 1 && Times(w.counted, 0) == 1 && Times(w.counted, 1) == 1
  {
    hide *;
    LostAck();
    Retried();
    NextBatch();
    JoinRuns(Start(), LOST_ACK + RETRY, NEXT_BATCH, {});
    EachOnce();
  }

  lemma EachOnce()
    ensures Times([Range(0, 1), Range(1, 2)], 0) == 1 && Times([Range(0, 1), Range(1, 2)], 1) == 1
  {
    assert [Range(0, 1), Range(1, 2)][..1] == [Range(0, 1)] && [Range(0, 1)][..0] == [];
  }

  // ---- Each premise broken alone ---------------------------------------------

  lemma AfterPush(first: seq<Step>, w: World, e: Event)
    requires Shaped(Start()) && AllowedRun(Start(), first, {}) && Run(Start(), first, {}) == w
    requires Shaped(w) && |QueueOf(w)| < 10 && |e| == 1
    requires !w.waiting && forall k :: 0 <= k < |QueueOf(w)| ==> |QueueOf(w)[k]| == 1
    ensures AllowedRun(Start(), first + [Push([e])], {})
    ensures Run(Start(), first + [Push([e])], {}) == w.(pushed := w.pushed + [e])
    ensures Invariant(w.(pushed := w.pushed + [e]))
  {
    hide Dropped, AllowedRun, Run, Invariant;
    SmallPush(w, e);
    OneStep(w, Push([e]), {});
    JoinRuns(Start(), first, [Push([e])], {});
    StartIsGood();
    RunKeepsInvariant(Start(), first + [Push([e])]);
  }

  /** A short batch retried after a push has a new id: its event is counted twice. */
  lemma ShortRetryCountsTwice()
    ensures var steps := (LOST_ACK + [Push([B])]) + [Send, Arrive(Range(0, 2))];
            AllowedRun(Start(), steps, {Retry}) && Times(Run(Start(), steps, {Retry}).counted, 0) >= 2
  {
    hide AllowedRun, Run, Invariant, Times;
    LostAck();
    InvariantIsShaped(AFTER_LOST_ACK);
    AfterPush(LOST_ACK, AFTER_LOST_ACK, B);
    var w := AFTER_LOST_ACK.(pushed := [A, B]);
    assert [A] + [B] == [A, B];
    InvariantIsShaped(w);
    assert Next(w) == Range(0, 2) && Content(w, Range(0, 2)) == [A, B];
    ChangedRetryCountsTwice(w);
    assert [] + [Arrive(Range(0, 2))] == [Arrive(Range(0, 2))];
    BreakThen(w, Send, [Arrive(Range(0, 2))], {Retry});
    assert [Send] + [Arrive(Range(0, 2))] == [Send, Arrive(Range(0, 2))];
    ThenWaive(Start(), LOST_ACK + [Push([B])], [Send, Arrive(Range(0, 2))], {Retry});
  }

  /** A batch equal to an earlier one is taken for its replay: its event is never counted. */
  lemma EqualBatchGoesUncounted()
    ensures var steps := ((LOST_ACK + RETRY) + [Push([A])]) + ([Send] + [Arrive(Range(1, 2)), Confirm]);
            AllowedRun(Start(), steps, {Freshness}) &&
            var w := Run(Start(), steps, {Freshness});
            1 < w.front && 1 !in w.trimmed && Times(w.counted, 1) == 0
  {
    hide AllowedRun, Run, Invariant, Times;
    LostAck();
    Retried();
    InvariantIsShaped(AFTER_RETRY);
    AfterPush(LOST_ACK + RETRY, AFTER_RETRY, A);
    var w := AFTER_RETRY.(pushed := [A, A]);
    assert [A] + [A] == [A, A];
    InvariantIsShaped(w);
    assert Next(w) == Range(1, 2) && Content(w, Range(1, 2)) == [A];
    assert SharesId(w, Range(0, 1));
    SharedIdGoesUncounted(w, Range(0, 1));
    assert [] + [Arrive(Range(1, 2)), Confirm] == [Arrive(Range(1, 2)), Confirm];
    BreakThen(w, Send, [Arrive(Range(1, 2)), Confirm], {Freshness});
    ThenWaive(Start(), (LOST_ACK + RETRY) + [Push([A])], [Send] + [Arrive(Range(1, 2)), Confirm], {Freshness});
  }

  /** The event right behind the first batch is a different one. */
  const FULL: seq<Event> := seq(1000, k => if k == 100 then B else A)

  const AFTER_FULL :=
    World(FULL, 0, {Range(0, 100)}, true, Some(Range(0, 100)), map[FULL[0..100] := 0], {Range(0, 100)}, 0,
          [Range(0, 100)], map[FULL[0..100] := 0], {})

  const FILL: seq<Step> := [Push(FULL), Send, Arrive(Range(0, 100))]

  lemma Filled()
    ensures Shaped(Start()) && AllowedRun(Start(), FILL, {}) && Run(Start(), FILL, {}) == AFTER_FULL
    ensures Invariant(AFTER_FULL)
  {
    hide Dropped, AllowedRun, Run, Invariant, FULL;
    FullIsFull();
    StartIsGood();
    InvariantIsShaped(Start());
    assert QueueOf(Start()) + FULL == FULL && Start().pushed + FULL == FULL;
    FittingPush(Start(), FULL);
    var w1 := Do(Start(), Push(FULL));
    assert w1 == World(FULL, 0, {}, false, None, map[], {}, 0, [], map[], {});
    var w2 := Do(w1, Send);
    assert w2 == World(FULL, 0, {Range(0, 100)}, true, Some(Range(0, 100)), map[], {}, 0, [], map[], {});
    assert Do(w2, Arrive(Range(0, 100))) == AFTER_FULL;
    OneStep(w2, Arrive(Range(0, 100)), {});
    RunStep(w1, Send, [Arrive(Range(0, 100))], {});
    RunStep(Start(), Push(FULL), [Send] + [Arrive(Range(0, 100))], {});
    assert FILL == [Push(FULL)] + ([Send] + [Arrive(Range(0, 100))]);
    RunKeepsInvariant(Start(), FILL);
  }

  lemma FullIsFull()
    ensures |FULL| == 1000 && Queue.WithinCaps(FULL)
    ensures |Queue.Trim(FULL + [A])| == 1000
  {
    var more := FULL + [A];
    OneByteEventsFit(FULL);
    OneByteEventsFit(more[1..]);
    hide Queue.Serialize;
    Queue.TrimKeepsLongestSuffix(more, 1);
    Queue.TrimFits(more);
  }

  /**
   The 1001st event trims one under a waiting flush of 100: confirming that drops one
   never sent. It is not queued any more, and no batch counted holds its like.
   */
  lemma TrimmedFrontLosesEvent()
    ensures AllowedRun(Start(), FILL + [Push([A]), Confirm], {Trimming})
    ensures var w := Run(Start(), FILL + [Push([A]), Confirm], {Trimming});
            LostEvent(w, 100) && w.pushed[100] == B && B !in QueueOf(w) &&
            forall m :: m in w.counted ==> m.from <= m.to <= |w.pushed| && B !in Content(w, m)
  {
    hide AllowedRun, Run, Invariant, FULL, Queue.Trim;
    FullIsFull();
    Filled();
    InvariantIsShaped(AFTER_FULL);
    assert QueueOf(AFTER_FULL) == FULL;
    assert Dropped(AFTER_FULL, [A]) == 1;
    TrimWhileWaitingLosesIff(AFTER_FULL, [A], 100);
    PushThenConfirm(AFTER_FULL, [A]);
    ThenWaive(Start(), FILL, [Push([A]), Confirm], {Trimming});
    OnlyOneB(Run(AFTER_FULL, [Push([A]), Confirm], {Trimming}));
  }

  lemma OnlyOneB(w: World)
    requires w.pushed == FULL + [A] && w.front == 101 && w.counted == [Range(0, 100)]
    ensures w.pushed[100] == B && B !in QueueOf(w) && B !in Content(w, Range(0, 100))
  {
  }

  function Days(n: nat): seq<Step> {
    if n == 0 then [] else [NextDay] + Days(n - 1)
  }

  lemma {:induction false} AfterDays(w: World, n: nat)
    requires Shaped(w)
    ensures AllowedRun(w, Days(n), {}) && Run(w, Days(n), {}) == w.(today := w.today + n)
    decreases n
  {
    hide AllowedRun, Run, Shaped;
    if n == 0 {
      NoSteps(w, {});
    } else {
      var v := Do(w, NextDay);
      assert v == w.(today := w.today + 1);
      AfterDays(v, n - 1);
      assert v.(today := v.today + (n - 1)) == w.(today := w.today + n);
      DayIsAllowed(w);
      RunStep(w, NextDay, Days(n - 1), {});
    }
  }

  lemma DayIsAllowed(w: World)
    requires Shaped(w)
    ensures AllowedBut(w, NextDay, {})
  {
  }

  /** A retry after the ledger row expired is counted again. */
  lemma LateRetryCountsTwice()
    ensures var steps := (LOST_ACK + Days(31)) + [Prune, Arrive(Range(0, 1))];
            AllowedRun(Start(), steps, {Window}) && Times(Run(Start(), steps, {Window}).counted, 0) >= 2
  {
    hide AllowedRun, Run, Invariant, Times, Days;
    LostAck();
    InvariantIsShaped(AFTER_LOST_ACK);
    AfterDays(AFTER_LOST_ACK, 31);
    JoinRuns(Start(), LOST_ACK, Days(31), {});
    StartIsGood();
    RunKeepsInvariant(Start(), LOST_ACK + Days(31));
    var w := AFTER_LOST_ACK.(today := 31);
    assert Content(w, Range(0, 1)) == [A];
    LateReplayCountsTwice(w, Range(0, 1), 0);
    ThenWaive(Start(), LOST_ACK + Days(31), [Prune, Arrive(Range(0, 1))], {Window});
  }
}

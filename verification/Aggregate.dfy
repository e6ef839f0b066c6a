/**
 The fold of apps/usage-worker/src/aggregate.ts: validated events become daily
 counter rows, grouped under a NUL-joined key, in order of first appearance.
 */
module Aggregate {
  import opened Texts
  import opened Tallies
  import opened Validate

  /** The seven dimensions of a counter row: the primary key of `usage_daily_counts`. */
  datatype CountKey = CountKey(
    day: Text, eventName: Text, source: Text, hostFamily: Text, inputKind: Text, productVersion: Text,
    discoverySurface: Text)

  /** The primary key of `usage_daily_installations`. */
  datatype InstallKey = InstallKey(day: Text, hash: Text)

  datatype CountRow = CountRow(key: CountKey, count: nat)
  datatype InstallRow = InstallRow(key: InstallKey, preflights: nat, attention: nat)

  /** An event with the HMAC of its installation id; the raw id is gone. */
  datatype HashedEvent = HashedEvent(event: Event, hash: Option<Text>)

  function KeyOf(e: HashedEvent): CountKey {
    CountKey(DayOf(e.event.timestamp), e.event.eventName, e.event.source, e.event.hostFamily, e.event.inputKind,
             e.event.productVersion, e.event.discoverySurface)
  }

  /** `[...].join("\u0000")` over the seven dimensions. */
  function JoinedKey(k: CountKey): Text {
    k.day + ([NUL] + (k.eventName + ([NUL] + (k.source + ([NUL] + (k.hostFamily + ([NUL] + (k.inputKind + ([NUL] +
    (k.productVersion + ([NUL] + k.discoverySurface)))))))))))
  }

  function JoinedInstallKey(k: InstallKey): Text {
    k.day + ([NUL] + k.hash)
  }

  /** `!installationHash` is true of the empty string too. */
  predicate HasInstallation(e: HashedEvent) {
    e.hash.Some? && e.hash.value != []
  }

  function InstallKeyOf(e: HashedEvent): InstallKey
    requires HasInstallation(e)
  {
    InstallKey(DayOf(e.event.timestamp), e.hash.value)
  }

  // ---- The fold, one event at a time ----------------------------------------

  /** Index of the row a joined key maps to. */
  function FindCount(rows: seq<CountRow>, joined: Text): (r: Option<nat>)
    ensures r.Some? ==> r.value < |rows| && JoinedKey(rows[r.value].key) == joined
    ensures r.None? ==> forall i :: 0 <= i < |rows| ==> JoinedKey(rows[i].key) != joined
  {
    if rows == [] then None
    else if JoinedKey(rows[|rows| - 1].key) == joined then Some(|rows| - 1)
    else FindCount(rows[..|rows| - 1], joined)
  }

  function CountEvent(rows: seq<CountRow>, e: HashedEvent): seq<CountRow> {
    var at := FindCount(rows, JoinedKey(KeyOf(e)));
    if at.Some? then rows[at.value := rows[at.value].(count := rows[at.value].count + 1)]
    else rows + [CountRow(KeyOf(e), 1)]
  }

  function FindInstall(rows: seq<InstallRow>, joined: Text): (r: Option<nat>)
    ensures r.Some? ==> r.value < |rows| && JoinedInstallKey(rows[r.value].key) == joined
    ensures r.None? ==> forall i :: 0 <= i < |rows| ==> JoinedInstallKey(rows[i].key) != joined
  {
    if rows == [] then None
    else if JoinedInstallKey(rows[|rows| - 1].key) == joined then Some(|rows| - 1)
    else FindInstall(rows[..|rows| - 1], joined)
  }

  function Unit01(b: bool): nat {
    if b then 1 else 0
  }

  function InstallEvent(rows: seq<InstallRow>, e: HashedEvent): seq<InstallRow> {
    if !HasInstallation(e) then rows
    else
      var key := InstallKeyOf(e);
      var at := FindInstall(rows, JoinedInstallKey(key));
      if at.Some? then
        var row := rows[at.value];
        rows[at.value := row.(preflights := row.preflights + Unit01(IsPreflight(e.event)),
                              attention := row.attention + Unit01(IsAttention(e.event)))]
      else rows + [InstallRow(key, Unit01(IsPreflight(e.event)), Unit01(IsAttention(e.event)))]
  }

  function CountRows(events: seq<HashedEvent>): seq<CountRow> {
    if events == [] then [] else CountEvent(CountRows(events[..|events| - 1]), events[|events| - 1])
  }

  function InstallRows(events: seq<HashedEvent>): seq<InstallRow> {
    if events == [] then [] else InstallEvent(InstallRows(events[..|events| - 1]), events[|events| - 1])
  }

  /** A map from joined keys to row positions holds each row at its own key. */
  ghost predicate IndexesCounts(at: map<Text, nat>, rows: seq<CountRow>) {
    && (forall t :: t in at ==> at[t] < |rows| && JoinedKey(rows[at[t]].key) == t)
    && (forall i :: 0 <= i < |rows| ==> JoinedKey(rows[i].key) in at && at[JoinedKey(rows[i].key)] == i)
  }

  ghost predicate IndexesInstalls(at: map<Text, nat>, rows: seq<InstallRow>) {
    && (forall t :: t in at ==> at[t] < |rows| && JoinedInstallKey(rows[at[t]].key) == t)
    && (forall i :: 0 <= i < |rows| ==> JoinedInstallKey(rows[i].key) in at && at[JoinedInstallKey(rows[i].key)] == i)
  }

  /** The two insertion-ordered maps, updated event by event. */
  method Fold(hashed: seq<HashedEvent>) returns (counts: seq<CountRow>, installations: seq<InstallRow>)
    ensures counts == CountRows(hashed) && installations == InstallRows(hashed)
  {
    hide JoinedKey, JoinedInstallKey, FindCount, FindInstall, IsPreflight, IsAttention, KeyOf;
    counts, installations := [], [];
    var countAt: map<Text, nat> := map[];
    var installAt: map<Text, nat> := map[];
    for n := 0 to |hashed|
      invariant counts == CountRows(hashed[..n]) && installations == InstallRows(hashed[..n])
      invariant IndexesCounts(countAt, counts) && IndexesInstalls(installAt, installations)
    {
      var e := hashed[n];
      assert hashed[..n + 1][..n] == hashed[..n] && hashed[..n + 1][n] == e;
      counts, countAt := BumpCount(counts, countAt, e);
      if !HasInstallation(e) { continue; }
      installations, installAt := BumpInstall(installations, installAt, e);
    }
    assert hashed[..|hashed|] == hashed;
  }

  method BumpCount(rows: seq<CountRow>, at: map<Text, nat>, e: HashedEvent)
    returns (rows': seq<CountRow>, at': map<Text, nat>)
    requires IndexesCounts(at, rows)
    ensures rows' == CountEvent(rows, e) && IndexesCounts(at', rows')
  {
    hide JoinedKey, KeyOf;
    var countKey := JoinedKey(KeyOf(e));
    if countKey in at {
      var k := at[countKey];
      rows', at' := rows[k := rows[k].(count := rows[k].count + 1)], at;
    } else {
      rows', at' := rows + [CountRow(KeyOf(e), 1)], at[countKey := |rows|];
    }
  }

  method BumpInstall(rows: seq<InstallRow>, at: map<Text, nat>, e: HashedEvent)
    returns (rows': seq<InstallRow>, at': map<Text, nat>)
    requires IndexesInstalls(at, rows) && HasInstallation(e)
    ensures rows' == InstallEvent(rows, e) && IndexesInstalls(at', rows')
  {
    hide JoinedInstallKey, IsPreflight, IsAttention;
    var key := InstallKeyOf(e);
    var installKey := JoinedInstallKey(key);
    rows', at' := rows, at;
    if installKey !in at' {
      rows', at' := rows + [InstallRow(key, 0, 0)], at[installKey := |rows|];
    }
    var k := at'[installKey];
    if IsPreflight(e.event) { rows' := rows'[k := rows'[k].(preflights := rows'[k].preflights + 1)]; }
    if IsAttention(e.event) { rows' := rows'[k := rows'[k].(attention := rows'[k].attention + 1)]; }
  }

  // ---- The joined key is injective ------------------------------------------

  lemma {:induction false} NulSplits(a: Text, b: Text, s: Text, t: Text)
    requires NulFree(a) && NulFree(b) && a + ([NUL] + s) == b + ([NUL] + t)
    ensures a == b && s == t
    decreases |a|
  {
    var x, y := a + ([NUL] + s), b + ([NUL] + t);
    assert x[0] == (if a == [] then NUL else a[0]) && y[0] == (if b == [] then NUL else b[0]);
    if a == [] {
      assert b == [];
      assert x[1..] == s && y[1..] == t;
    } else if b != [] {
      assert x[1..] == a[1..] + ([NUL] + s) && y[1..] == b[1..] + ([NUL] + t);
      NulSplits(a[1..], b[1..], s, t);
      assert a == [a[0]] + a[1..] && b == [b[0]] + b[1..];
    }
  }

  ghost predicate PlainKey(k: CountKey) {
    NulFree(k.day) && NulFree(k.eventName) && NulFree(k.source) && NulFree(k.hostFamily) && NulFree(k.inputKind) &&
    NulFree(k.productVersion) && NulFree(k.discoverySurface)
  }

  /** On stored dimensions the joined key tells all seven apart. */
  lemma JoinedKeyInjective(a: CountKey, b: CountKey)
    requires PlainKey(a) && PlainKey(b)
    ensures JoinedKey(a) == JoinedKey(b) <==> a == b
  {
    if JoinedKey(a) == JoinedKey(b) {
      hide NulFree;
      var a6, b6 := a.productVersion + ([NUL] + a.discoverySurface), b.productVersion + ([NUL] + b.discoverySurface);
      var a5, b5 := a.inputKind + ([NUL] + a6), b.inputKind + ([NUL] + b6);
      var a4, b4 := a.hostFamily + ([NUL] + a5), b.hostFamily + ([NUL] + b5);
      var a3, b3 := a.source + ([NUL] + a4), b.source + ([NUL] + b4);
      var a2, b2 := a.eventName + ([NUL] + a3), b.eventName + ([NUL] + b3);
      NulSplits(a.day, b.day, a2, b2);
      NulSplits(a.eventName, b.eventName, a3, b3);
      NulSplits(a.source, b.source, a4, b4);
      NulSplits(a.hostFamily, b.hostFamily, a5, b5);
      NulSplits(a.inputKind, b.inputKind, a6, b6);
      NulSplits(a.productVersion, b.productVersion, a.discoverySurface, b.discoverySurface);
    }
  }

  lemma JoinedInstallKeyInjective(a: InstallKey, b: InstallKey)
    requires NulFree(a.day) && NulFree(b.day)
    ensures JoinedInstallKey(a) == JoinedInstallKey(b) <==> a == b
  {
    if JoinedInstallKey(a) == JoinedInstallKey(b) { NulSplits(a.day, b.day, a.hash, b.hash); }
  }

  /** Without validation the join merges rows that differ in two dimensions. */
  lemma UnvalidatedKeysCollide()
    ensures exists a: CountKey, b: CountKey :: a != b && JoinedKey(a) == JoinedKey(b)
  {
    var x, y, none: Text := [0x78], [0x79], [];
    var a := CountKey(none, none, x + [NUL] + y, none, none, none, none);
    var b := CountKey(none, none, x, y + [NUL], none, none, none);
    assert JoinedKey(a) == [NUL, NUL, 0x78, NUL, 0x79, NUL, NUL, NUL, NUL];
    assert JoinedKey(b) == [NUL, NUL, 0x78, NUL, 0x79, NUL, NUL, NUL, NUL];
    assert a.source != b.source by { assert |a.source| == 3; }
  }

  // ---- What the rows add to a table -----------------------------------------

  /** One upsert per row. */
  function CountBumps(rows: seq<CountRow>): (bs: seq<Bump<CountKey>>)
    ensures |bs| == |rows|
  {
    seq(|rows|, i requires 0 <= i < |rows| => Bump(rows[i].key, rows[i].count))
  }

  /** What counting each event by itself would add. */
  function EventBumps(events: seq<HashedEvent>): seq<Bump<CountKey>> {
    seq(|events|, i requires 0 <= i < |events| => Bump(KeyOf(events[i]), 1))
  }

  ghost predicate AllStorable(events: seq<HashedEvent>) {
    forall i :: 0 <= i < |events| ==> Storable(events[i].event)
  }

  lemma StorableKey(e: HashedEvent)
    requires Storable(e.event)
    ensures PlainKey(KeyOf(e))
  {
  }

  lemma SumUpdate<K>(bs: seq<Bump<K>>, j: nat, more: nat, k: K)
    requires j < |bs|
    ensures var grown := bs[j := Bump(bs[j].key, bs[j].amount + more)];
            && Sum(grown, k) == Sum(bs, k) + (if bs[j].key == k then more else 0)
            && (Mentions(grown, k) <==> Mentions(bs, k))
  {
    var grown := bs[j := Bump(bs[j].key, bs[j].amount + more)];
    SumWithout(bs, j, k);
    SumWithout(grown, j, k);
    assert grown[..j] + grown[j + 1..] == bs[..j] + bs[j + 1..];
    assert forall i :: 0 <= i < |bs| ==> grown[i].key == bs[i].key;
    if Mentions(bs, k) {
      var i :| 0 <= i < |bs| && bs[i].key == k;
      assert grown[i].key == k;
    }
  }

  lemma SumAppend<K>(bs: seq<Bump<K>>, b: Bump<K>, k: K)
    ensures Sum(bs + [b], k) == Sum(bs, k) + (if b.key == k then b.amount else 0)
    ensures Mentions(bs + [b], k) <==> Mentions(bs, k) || b.key == k
  {
    SumConcat(bs, [b], k);
    assert [b][1..] == [];
    if Mentions(bs, k) {
      var i :| 0 <= i < |bs| && bs[i].key == k;
      assert (bs + [b])[i].key == k;
    }
    assert (bs + [b])[|bs|] == b;
  }

  ghost predicate PlainRows(rows: seq<CountRow>) {
    forall i :: 0 <= i < |rows| ==> PlainKey(rows[i].key)
  }

  lemma CountEventAdds(rows: seq<CountRow>, e: HashedEvent, k: CountKey)
    requires PlainRows(rows) && Storable(e.event)
    ensures PlainRows(CountEvent(rows, e))
    ensures var bs := CountBumps(rows);
            var grown := CountBumps(CountEvent(rows, e));
            && Sum(grown, k) == Sum(bs, k) + (if KeyOf(e) == k then 1 else 0)
            && (Mentions(grown, k) <==> Mentions(bs, k) || KeyOf(e) == k)
  {
    StorableKey(e);
    hide JoinedKey, PlainKey, Storable, KeyOf;
    var bs := CountBumps(rows);
    var at := FindCount(rows, JoinedKey(KeyOf(e)));
    if at.Some? {
      JoinedKeyInjective(rows[at.value].key, KeyOf(e));
      SumUpdate(bs, at.value, 1, k);
      assert CountBumps(CountEvent(rows, e)) == bs[at.value := Bump(bs[at.value].key, bs[at.value].amount + 1)];
      assert bs[at.value].key == KeyOf(e);
    } else {
      SumAppend(bs, Bump(KeyOf(e), 1), k);
      assert CountBumps(CountEvent(rows, e)) == bs + [Bump(KeyOf(e), 1)];
    }
  }

  lemma NoRows(k: CountKey)
    ensures PlainRows([]) && CountBumps([]) == [] == EventBumps([])
  {
  }

  lemma {:induction false} CountRowsAdd(events: seq<HashedEvent>, k: CountKey)
    requires AllStorable(events)
    ensures PlainRows(CountRows(events))
    ensures Sum(CountBumps(CountRows(events)), k) == Sum(EventBumps(events), k)
    ensures Mentions(CountBumps(CountRows(events)), k) <==> Mentions(EventBumps(events), k)
    decreases |events|
  {
    hide Storable, PlainRows, CountEvent, CountBumps, KeyOf;
    if events != [] {
      var prefix, e := events[..|events| - 1], events[|events| - 1];
      CountRowsAdd(prefix, k);
      CountEventAdds(CountRows(prefix), e, k);
      SumAppend(EventBumps(prefix), Bump(KeyOf(e), 1), k);
      assert EventBumps(events) == EventBumps(prefix) + [Bump(KeyOf(e), 1)];
    } else {
      NoRows(k);
    }
  }

  /** Upserting the grouped rows is counting the events one by one. */
  lemma RowsCountEvents(t: map<CountKey, nat>, events: seq<HashedEvent>)
    requires AllStorable(events)
    ensures AddAll(t, CountBumps(CountRows(events))) == AddAll(t, EventBumps(events))
  {
    forall k ensures Sum(CountBumps(CountRows(events)), k) == Sum(EventBumps(events), k)
             ensures Mentions(CountBumps(CountRows(events)), k) <==> Mentions(EventBumps(events), k)
    {
      CountRowsAdd(events, k);
    }
    SameEffect(t, CountBumps(CountRows(events)), EventBumps(events));
  }

  lemma StorableConcat(a: seq<HashedEvent>, b: seq<HashedEvent>)
    requires AllStorable(a) && AllStorable(b)
    ensures AllStorable(a + b)
  {
    hide Storable;
  }

  lemma EventBumpsConcat(a: seq<HashedEvent>, b: seq<HashedEvent>)
    ensures EventBumps(a + b) == EventBumps(a) + EventBumps(b)
  {
    hide KeyOf;
  }

  /** Batching is irrelevant: two batches in turn leave the counters one joint batch leaves. */
  lemma BatchingIsIrrelevant(t: map<CountKey, nat>, a: seq<HashedEvent>, b: seq<HashedEvent>)
    requires AllStorable(a) && AllStorable(b)
    ensures AddAll(AddAll(t, CountBumps(CountRows(a))), CountBumps(CountRows(b))) ==
            AddAll(t, CountBumps(CountRows(a + b)))
  {
    hide *;
    StorableConcat(a, b);
    RowsCountEvents(t, a);
    RowsCountEvents(AddAll(t, EventBumps(a)), b);
    RowsCountEvents(t, a + b);
    EventBumpsConcat(a, b);
    AddAllConcat(t, EventBumps(a), EventBumps(b));
  }

  function RowTotal(rows: seq<CountRow>): nat {
    if rows == [] then 0 else RowTotal(rows[..|rows| - 1]) + rows[|rows| - 1].count
  }

  lemma {:induction false} RowTotalUpdate(rows: seq<CountRow>, j: nat)
    requires j < |rows|
    ensures RowTotal(rows[j := rows[j].(count := rows[j].count + 1)]) == RowTotal(rows) + 1
    decreases |rows|
  {
    var last := |rows| - 1;
    var grown := rows[j := rows[j].(count := rows[j].count + 1)];
    if j == last {
      assert grown[..last] == rows[..last];
    } else {
      RowTotalUpdate(rows[..last], j);
      assert grown[..last] == rows[..last][j := rows[..last][j].(count := rows[..last][j].count + 1)];
    }
  }

  ghost predicate DistinctRows(rows: seq<CountRow>) {
    forall i, j :: 0 <= i < j < |rows| ==> JoinedKey(rows[i].key) != JoinedKey(rows[j].key)
  }

  lemma CountEventPartitions(rows: seq<CountRow>, e: HashedEvent)
    requires DistinctRows(rows)
    ensures DistinctRows(CountEvent(rows, e)) && RowTotal(CountEvent(rows, e)) == RowTotal(rows) + 1
  {
    hide JoinedKey, KeyOf;
    var at := FindCount(rows, JoinedKey(KeyOf(e)));
    if at.Some? {
      hide RowTotal;
      RowTotalUpdate(rows, at.value);
    } else {
      assert (rows + [CountRow(KeyOf(e), 1)])[..|rows|] == rows;
    }
  }

  /** Every event is counted once, in one row per key. */
  lemma {:induction false} RowsPartitionEvents(events: seq<HashedEvent>)
    ensures RowTotal(CountRows(events)) == |events|
    ensures DistinctRows(CountRows(events))
    decreases |events|
  {
    if events != [] {
      var prefix, e := events[..|events| - 1], events[|events| - 1];
      RowsPartitionEvents(prefix);
      CountEventPartitions(CountRows(prefix), e);
    }
  }

  // ---- The same for the two columns of an installation row ------------------

  datatype Column = Preflights | Attention

  function Cell(c: Column, row: InstallRow): nat {
    if c.Preflights? then row.preflights else row.attention
  }

  function Weight(c: Column, e: HashedEvent): nat {
    Unit01(if c.Preflights? then IsPreflight(e.event) else IsAttention(e.event))
  }

  function InstallBumps(c: Column, rows: seq<InstallRow>): (bs: seq<Bump<InstallKey>>)
    ensures |bs| == |rows|
  {
    seq(|rows|, i requires 0 <= i < |rows| => Bump(rows[i].key, Cell(c, rows[i])))
  }

  /** What each event that names an installation would add by itself. */
  function InstallEventBumps(c: Column, events: seq<HashedEvent>): seq<Bump<InstallKey>> {
    if events == [] then []
    else
      var e := events[|events| - 1];
      InstallEventBumps(c, events[..|events| - 1]) +
      (if HasInstallation(e) then [Bump(InstallKeyOf(e), Weight(c, e))] else [])
  }

  ghost predicate PlainInstallRows(rows: seq<InstallRow>) {
    forall i :: 0 <= i < |rows| ==> NulFree(rows[i].key.day)
  }

  lemma InstallEventAdds(c: Column, rows: seq<InstallRow>, e: HashedEvent, k: InstallKey)
    requires PlainInstallRows(rows) && Storable(e.event) && HasInstallation(e)
    ensures PlainInstallRows(InstallEvent(rows, e))
    ensures var bs := InstallBumps(c, rows);
            var grown := InstallBumps(c, InstallEvent(rows, e));
            && Sum(grown, k) == Sum(bs, k) + (if InstallKeyOf(e) == k then Weight(c, e) else 0)
            && (Mentions(grown, k) <==> Mentions(bs, k) || InstallKeyOf(e) == k)
  {
    hide JoinedInstallKey, IsPreflight, IsAttention, NulFree;
    var bs, key := InstallBumps(c, rows), InstallKeyOf(e);
    var at := FindInstall(rows, JoinedInstallKey(key));
    if at.Some? {
      JoinedInstallKeyInjective(rows[at.value].key, key);
      SumUpdate(bs, at.value, Weight(c, e), k);
      assert InstallBumps(c, InstallEvent(rows, e)) ==
             bs[at.value := Bump(bs[at.value].key, bs[at.value].amount + Weight(c, e))];
      assert bs[at.value].key == key;
    } else {
      SumAppend(bs, Bump(key, Weight(c, e)), k);
      assert InstallBumps(c, InstallEvent(rows, e)) == bs + [Bump(key, Weight(c, e))];
    }
  }

  lemma {:induction false} InstallRowsAdd(c: Column, events: seq<HashedEvent>, k: InstallKey)
    requires AllStorable(events)
    ensures PlainInstallRows(InstallRows(events))
    ensures Sum(InstallBumps(c, InstallRows(events)), k) == Sum(InstallEventBumps(c, events), k)
    ensures Mentions(InstallBumps(c, InstallRows(events)), k) <==> Mentions(InstallEventBumps(c, events), k)
    decreases |events|
  {
    if events != [] {
      var prefix, e := events[..|events| - 1], events[|events| - 1];
      InstallRowsAdd(c, prefix, k);
      if HasInstallation(e) {
        InstallEventAdds(c, InstallRows(prefix), e, k);
        SumAppend(InstallEventBumps(c, prefix), Bump(InstallKeyOf(e), Weight(c, e)), k);
      } else {
        assert InstallEventBumps(c, events) == InstallEventBumps(c, prefix);
      }
    }
  }

  /** Upserting the installation rows is recording the events one by one, in both columns. */
  lemma RowsRecordInstallations(c: Column, t: map<InstallKey, nat>, events: seq<HashedEvent>)
    requires AllStorable(events)
    ensures AddAll(t, InstallBumps(c, InstallRows(events))) == AddAll(t, InstallEventBumps(c, events))
  {
    forall k ensures Sum(InstallBumps(c, InstallRows(events)), k) == Sum(InstallEventBumps(c, events), k)
             ensures Mentions(InstallBumps(c, InstallRows(events)), k) <==> Mentions(InstallEventBumps(c, events), k)
    {
      InstallRowsAdd(c, events, k);
    }
    SameEffect(t, InstallBumps(c, InstallRows(events)), InstallEventBumps(c, events));
  }

  lemma {:induction false} InstallEventBumpsConcat(c: Column, a: seq<HashedEvent>, b: seq<HashedEvent>)
    ensures InstallEventBumps(c, a + b) == InstallEventBumps(c, a) + InstallEventBumps(c, b)
    decreases |b|
  {
    if b == [] {
      assert a + b == a;
    } else {
      var last := |b| - 1;
      assert (a + b)[..|a + b| - 1] == a + b[..last] && (a + b)[|a + b| - 1] == b[last];
      InstallEventBumpsConcat(c, a, b[..last]);
    }
  }

  lemma InstallBatchingIsIrrelevant(c: Column, t: map<InstallKey, nat>, a: seq<HashedEvent>, b: seq<HashedEvent>)
    requires AllStorable(a) && AllStorable(b)
    ensures AddAll(AddAll(t, InstallBumps(c, InstallRows(a))), InstallBumps(c, InstallRows(b))) ==
            AddAll(t, InstallBumps(c, InstallRows(a + b)))
  {
    hide *;
    StorableConcat(a, b);
    RowsRecordInstallations(c, t, a);
    RowsRecordInstallations(c, AddAll(t, InstallEventBumps(c, a)), b);
    RowsRecordInstallations(c, t, a + b);
    InstallEventBumpsConcat(c, a, b);
    AddAllConcat(t, InstallEventBumps(c, a), InstallEventBumps(c, b));
  }
}

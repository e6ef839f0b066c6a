/**
 The retention job of apps/usage-worker/src/retention.ts: two deletions by day
 string, over the tables the ingress fills.
 */
module Retention {
  import opened Texts
  import opened Calendar
  import opened Aggregate
  import opened Ingress

  const INSTALLATION_HASH_RETENTION_DAYS := 90
  const BATCH_ID_RETENTION_DAYS := 30

  /** The cutoff lies in years the clock prints with four digits. */
  predicate InRange(now: int, days: int) {
    FourDigitYear(DayOfInstant(now - days * MS_PER_DAY))
  }

  function CutoffDay(now: int, days: int): (t: Text)
    ensures InRange(now, days) ==> t == IsoDay(DayOfInstant(now - days * MS_PER_DAY))
  {
    DayText(DayOfInstant(now - days * MS_PER_DAY))
  }

  /** `toISOString` throws on a cutoff no `Date` can hold. */
  predicate CutoffThrows(now: int) {
    !IsTime(now - INSTALLATION_HASH_RETENTION_DAYS * MS_PER_DAY) || !IsTime(now - BATCH_ID_RETENTION_DAYS * MS_PER_DAY)
  }

  predicate Printable(now: int) {
    InRange(now, INSTALLATION_HASH_RETENTION_DAYS) && InRange(now, BATCH_ID_RETENTION_DAYS)
  }

  /** `DELETE FROM usage_daily_installations WHERE day < ?`, on one column. */
  function KeepInstalls(t: map<InstallKey, nat>, cutoff: Text): map<InstallKey, nat> {
    map k | k in t && !Less(k.day, cutoff) :: t[k]
  }

  /** `DELETE FROM usage_ingested_batches WHERE received_day < ?`. */
  function KeepBatches(ledger: map<Text, Text>, cutoff: Text): map<Text, Text> {
    map id | id in ledger && !Less(ledger[id], cutoff) :: ledger[id]
  }

  function Retain(db: Db, now: int): Db {
    var installs := CutoffDay(now, INSTALLATION_HASH_RETENTION_DAYS);
    db.(ledger := KeepBatches(db.ledger, CutoffDay(now, BATCH_ID_RETENTION_DAYS)),
        preflights := KeepInstalls(db.preflights, installs),
        attention := KeepInstalls(db.attention, installs))
  }

  /** One transaction over the worker's tables; answers how many rows went. */
  method EnforceRetention(w: Worker, now: int)
    returns (threw: bool, installationRowsDeleted: nat, batchRowsDeleted: nat)
    modifies w
    ensures threw <==> CutoffThrows(now)
    ensures w.db == if threw then old(w.db) else Retain(old(w.db), now)
    ensures installationRowsDeleted == |old(w.db).preflights| - |w.db.preflights|
    ensures batchRowsDeleted == |old(w.db).ledger| - |w.db.ledger|
  {
    if CutoffThrows(now) { return true, 0, 0; }
    threw := false;
    var installationCutoff := CutoffDay(now, INSTALLATION_HASH_RETENTION_DAYS);
    var batchCutoff := CutoffDay(now, BATCH_ID_RETENTION_DAYS);
    var before := w.db;
    var preflights := KeepInstalls(before.preflights, installationCutoff);
    var ledger := KeepBatches(before.ledger, batchCutoff);
    SubmapSize(preflights, before.preflights);
    SubmapSize(ledger, before.ledger);
    w.db := before.(preflights := preflights, attention := KeepInstalls(before.attention, installationCutoff),
                    ledger := ledger);
    installationRowsDeleted := |before.preflights| - |preflights|;
    batchRowsDeleted := |before.ledger| - |ledger|;
  }

  lemma SubmapSize<K, V>(small: map<K, V>, large: map<K, V>)
    requires small.Keys <= large.Keys
    ensures |small| <= |large|
  {
    SubsetSize(small.Keys, large.Keys);
    assert |small| == |small.Keys| && |large| == |large.Keys|;
  }

  lemma {:induction false} SubsetSize<K>(a: set<K>, b: set<K>)
    requires a <= b
    ensures |a| <= |b|
    decreases |a|
  {
    if a != {} {
      var x :| x in a;
      SubsetSize(a - {x}, b - {x});
    }
  }

  // ---- What stays -----------------------------------------------------------

  lemma CutoffIsDaysBack(now: int, days: int)
    ensures DayOfInstant(now - days * MS_PER_DAY) == DayOfInstant(now) - days
  {
  }

  /** A row of an ISO day stays exactly when its day is within the last 90 (or 30) days. */
  lemma RetentionKeepsRecentDays(db: Db, now: int, day: int, k: InstallKey, id: Text)
    requires Printable(now) && FourDigitYear(day)
    ensures k in db.preflights && k.day == IsoDay(day) ==>
              (k in Retain(db, now).preflights <==> day >= DayOfInstant(now) - 90)
    ensures k in db.attention && k.day == IsoDay(day) ==>
              (k in Retain(db, now).attention <==> day >= DayOfInstant(now) - 90)
    ensures id in db.ledger && db.ledger[id] == IsoDay(day) ==>
              (id in Retain(db, now).ledger <==> day >= DayOfInstant(now) - 30)
    ensures Retain(db, now).counts == db.counts
  {
    CutoffIsDaysBack(now, 90);
    CutoffIsDaysBack(now, 30);
    hide IsoDay, FourDigitYear, DayOfInstant, Less, DayText;
    IsoOrderIsDayOrder(day, DayOfInstant(now - 90 * MS_PER_DAY));
    IsoOrderIsDayOrder(day, DayOfInstant(now - 30 * MS_PER_DAY));
  }

  lemma CutoffGrows(now: int, later: int, days: int)
    requires now <= later && InRange(now, days) && InRange(later, days)
    ensures AtMost(CutoffDay(now, days), CutoffDay(later, days))
  {
    hide IsoDay, FourDigitYear, DayText, Less;
    var a, b := DayOfInstant(now - days * MS_PER_DAY), DayOfInstant(later - days * MS_PER_DAY);
    assert a <= b;
    IsoOrderIsDayOrder(a, b);
    IsoOrderIsDayOrder(b, a);
  }

  lemma OlderStaysDeleted(day: Text, cutoff: Text, later: Text)
    requires AtMost(cutoff, later) && Less(day, cutoff)
    ensures Less(day, later)
  {
    LessTotal(cutoff, later);
    if cutoff != later { LessTransitive(day, cutoff, later); }
  }

  /** A later run deletes at least what an earlier one would; running twice changes nothing more. */
  lemma RetentionIsMonotone(db: Db, now: int, later: int)
    requires now <= later && Printable(now) && Printable(later)
    ensures Retain(Retain(db, now), later) == Retain(db, later)
  {
    hide IsoDay, FourDigitYear, DayOfInstant, Less, DayText;
    CutoffGrows(now, later, INSTALLATION_HASH_RETENTION_DAYS);
    CutoffGrows(now, later, BATCH_ID_RETENTION_DAYS);
    var a, b := CutoffDay(now, 90), CutoffDay(later, 90);
    KeepInstallsTwice(db.preflights, a, b);
    KeepInstallsTwice(db.attention, a, b);
    KeepBatchesTwice(db.ledger, CutoffDay(now, 30), CutoffDay(later, 30));
  }

  lemma KeepInstallsTwice(t: map<InstallKey, nat>, a: Text, b: Text)
    requires AtMost(a, b)
    ensures KeepInstalls(KeepInstalls(t, a), b) == KeepInstalls(t, b)
  {
    forall k | k in t && Less(k.day, a) ensures Less(k.day, b) { OlderStaysDeleted(k.day, a, b); }
  }

  lemma KeepBatchesTwice(t: map<Text, Text>, a: Text, b: Text)
    requires AtMost(a, b)
    ensures KeepBatches(KeepBatches(t, a), b) == KeepBatches(t, b)
  {
    forall id | id in t && Less(t[id], a) ensures Less(t[id], b) { OlderStaysDeleted(t[id], a, b); }
  }
}

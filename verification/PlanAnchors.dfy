/**
 The session's plan anchors (packages/calllint-mcp/src/planAnchors.ts): a JavaScript
 `Map` kept in recency order and cut to 64 entries, against the calls that filled it.
 */
module PlanAnchors {
  import opened Texts

  const MAX_ANCHORS := 64

  datatype Anchor = Anchor(digest: Text, window: Text)

  /** `map.delete(digest)`: the other entries keep their insertion order. */
  function Without(entries: seq<Anchor>, digest: Text): seq<Anchor> {
    if entries == [] then []
    else (if entries[0].digest == digest then [] else [entries[0]]) + Without(entries[1..], digest)
  }

  function Lookup(entries: seq<Anchor>, digest: Text): Option<Text> {
    if entries == [] then None
    else if entries[0].digest == digest then Some(entries[0].window)
    else Lookup(entries[1..], digest)
  }

  function Digests(entries: seq<Anchor>): set<Text> {
    if entries == [] then {} else {entries[0].digest} + Digests(entries[1..])
  }

  function LastOf(entries: seq<Anchor>, n: nat): seq<Anchor> {
    if |entries| <= n then entries else entries[|entries| - n..]
  }

  function Remembered(entries: seq<Anchor>, a: Anchor): seq<Anchor> {
    LastOf(Without(entries, a.digest) + [a], MAX_ANCHORS)
  }

  /** A `Map` holds a key once. */
  ghost predicate Keyed(entries: seq<Anchor>) {
    entries == [] || (entries[0].digest !in Digests(entries[1..]) && Keyed(entries[1..]))
  }

  class Anchors {
    var entries: seq<Anchor>

    constructor ()
      ensures entries == []
    {
      entries := [];
    }

    method Remember(digest: Text, expiresAt: Text)
      modifies this
      ensures entries == Remembered(old(entries), Anchor(digest, expiresAt))
    {
      entries := Without(entries, digest);
      entries := entries + [Anchor(digest, expiresAt)];
      ghost var all := entries;
      while |entries| > MAX_ANCHORS
        invariant |entries| <= |all| && entries == all[|all| - |entries|..]
        invariant |entries| >= MAX_ANCHORS || entries == all
      {
        entries := entries[1..];
      }
    }

    method Recall(digest: Text) returns (window: Option<Text>)
      ensures window == Lookup(entries, digest)
    {
      for k := 0 to |entries|
        invariant Lookup(entries, digest) == Lookup(entries[k..], digest)
      {
        if entries[k].digest == digest { return Some(entries[k].window); }
      }
      return None;
    }

    method Reset()
      modifies this
      ensures entries == []
    {
      entries := [];
    }
  }

  // ---- The calls ------------------------------------------------------------

  /** The entries after a session's `remember` calls. */
  function Session(calls: seq<Anchor>): seq<Anchor>
    decreases |calls|
  {
    if calls == [] then [] else Remembered(Session(calls[..|calls| - 1]), calls[|calls| - 1])
  }

  /** Every digest's last call, in the order of those calls. */
  function LatestCalls(calls: seq<Anchor>): seq<Anchor>
    decreases |calls|
  {
    if calls == [] then []
    else Without(LatestCalls(calls[..|calls| - 1]), calls[|calls| - 1].digest) + [calls[|calls| - 1]]
  }

  // ---- Small facts ----------------------------------------------------------

  lemma {:induction false} WithoutConcat(a: seq<Anchor>, b: seq<Anchor>, d: Text)
    ensures Without(a + b, d) == Without(a, d) + Without(b, d)
  {
    if a == [] {
      assert a + b == b;
    } else {
      WithoutConcat(a[1..], b, d);
      assert (a + b)[1..] == a[1..] + b;
      var first := if a[0].digest == d then [] else [a[0]];
      assert first + (Without(a[1..], d) + Without(b, d)) == (first + Without(a[1..], d)) + Without(b, d);
    }
  }

  lemma {:induction false} DigestsConcat(a: seq<Anchor>, b: seq<Anchor>)
    ensures Digests(a + b) == Digests(a) + Digests(b)
  {
    if a == [] {
      assert a + b == b;
    } else {
      DigestsConcat(a[1..], b);
      assert (a + b)[1..] == a[1..] + b;
    }
  }

  lemma {:induction false} WithoutDigests(s: seq<Anchor>, d: Text)
    ensures Digests(Without(s, d)) == Digests(s) - {d}
    ensures Keyed(s) ==> Keyed(Without(s, d))
    ensures d !in Digests(s) ==> Without(s, d) == s
    ensures Keyed(s) && d in Digests(s) ==> |Without(s, d)| == |s| - 1
  {
    if s != [] {
      WithoutDigests(s[1..], d);
      var rest := Without(s[1..], d);
      if s[0].digest == d {
        assert Without(s, d) == rest;
      } else {
        assert Without(s, d)[0] == s[0] && Without(s, d)[1..] == rest;
        assert [s[0]] + s[1..] == s;
      }
    }
  }

  lemma {:induction false} KeyedConcat(a: seq<Anchor>, b: seq<Anchor>)
    ensures Keyed(a + b) <==> Keyed(a) && Keyed(b) && Digests(a) !! Digests(b)
  {
    if a == [] {
      assert a + b == b;
    } else {
      KeyedConcat(a[1..], b);
      DigestsConcat(a[1..], b);
      assert (a + b)[1..] == a[1..] + b;
    }
  }

  lemma KeyedAppend(s: seq<Anchor>, a: Anchor)
    requires Keyed(s) && a.digest !in Digests(s)
    ensures Keyed(s + [a]) && Digests(s + [a]) == Digests(s) + {a.digest}
  {
    assert [a][1..] == [];
    KeyedConcat(s, [a]);
    DigestsConcat(s, [a]);
  }

  lemma {:induction false} KeyedCounts(s: seq<Anchor>)
    requires Keyed(s)
    ensures |Digests(s)| == |s|
  {
    if s != [] { KeyedCounts(s[1..]); }
  }

  lemma {:induction false} LatestIsKeyed(calls: seq<Anchor>)
    ensures Keyed(LatestCalls(calls)) && Digests(LatestCalls(calls)) == Digests(calls)
    decreases |calls|
  {
    if calls != [] {
      var n := |calls| - 1;
      var before := LatestCalls(calls[..n]);
      LatestIsKeyed(calls[..n]);
      WithoutDigests(before, calls[n].digest);
      KeyedAppend(Without(before, calls[n].digest), calls[n]);
      DigestsConcat(calls[..n], [calls[n]]);
      assert calls == calls[..n] + [calls[n]];
    }
  }

  lemma LastOfConcat(a: seq<Anchor>, b: seq<Anchor>, n: nat)
    requires |b| >= n
    ensures LastOf(a + b, n) == LastOf(b, n)
  {
  }

  /** Cutting first and forgetting later, or the other way round. */
  lemma RememberCut(all: seq<Anchor>, a: Anchor)
    requires Keyed(all)
    ensures Remembered(LastOf(all, MAX_ANCHORS), a) == LastOf(Without(all, a.digest) + [a], MAX_ANCHORS)
  {
    hide Keyed, Digests;
    if |all| > MAX_ANCHORS {
      var cut := |all| - MAX_ANCHORS;
      var front, kept := all[..cut], all[cut..];
      assert all == front + kept;
      KeyedConcat(front, kept);
      WithoutConcat(front, kept, a.digest);
      WithoutDigests(kept, a.digest);
      LastOfConcat(Without(front, a.digest), Without(kept, a.digest) + [a], MAX_ANCHORS);
      assert Without(all, a.digest) + [a] == Without(front, a.digest) + (Without(kept, a.digest) + [a]);
    }
  }

  // ---- The store against the calls -------------------------------------------

  /** The store always holds the most recent 64 digests, each with its last window, in recency order. */
  lemma {:induction false} SessionHoldsMostRecent(calls: seq<Anchor>)
    ensures Session(calls) == LastOf(LatestCalls(calls), 64)
    decreases |calls|
  {
    if calls != [] {
      var n := |calls| - 1;
      SessionHoldsMostRecent(calls[..n]);
      LatestIsKeyed(calls[..n]);
      RememberCut(LatestCalls(calls[..n]), calls[n]);
    }
  }

  lemma LatestStep(calls: seq<Anchor>)
    requires calls != []
    ensures LatestCalls(calls) ==
            Without(LatestCalls(calls[..|calls| - 1]), calls[|calls| - 1].digest) + [calls[|calls| - 1]]
  {
  }

  /** Forgetting another digest keeps the split around `a`. */
  lemma SplitForgets(older: seq<Anchor>, a: Anchor, newer: seq<Anchor>, d: Text)
    requires a.digest != d
    ensures Without(older + [a] + newer, d) == Without(older, d) + [a] + Without(newer, d)
  {
    WithoutConcat(older + [a], newer, d);
    WithoutConcat(older, [a], d);
    hide Without;
    WithoutOther(a, d);
  }

  lemma WithoutOther(a: Anchor, d: Text)
    requires a.digest != d
    ensures Without([a], d) == [a]
  {
    assert [a][1..] == [];
  }

  lemma DigestsAppend(s: seq<Anchor>, a: Anchor)
    ensures Digests(s + [a]) == Digests(s) + {a.digest}
  {
    DigestsConcat(s, [a]);
    assert [a][1..] == [];
  }

  /** In recency order, a last call is followed by exactly the digests remembered since. */
  lemma {:induction false} LatestSplits(calls: seq<Anchor>, k: nat) returns (older: seq<Anchor>, newer: seq<Anchor>)
    requires k < |calls| && calls[k].digest !in Digests(calls[k + 1..])
    ensures LatestCalls(calls) == older + [calls[k]] + newer
    ensures Digests(newer) == Digests(calls[k + 1..])
    decreases |calls|
  {
    hide *;
    var n := |calls| - 1;
    var last := calls[n];
    LatestStep(calls);
    if k == n {
      older, newer := Without(LatestCalls(calls[..n]), last.digest), [];
      assert calls[k + 1..] == [];
    } else {
      var since := calls[k + 1..n];
      assert calls[k + 1..] == since + [last] && calls[..n][k + 1..] == since;
      DigestsAppend(since, last);
      var x, y := LatestSplits(calls[..n], k);
      older, newer := Without(x, last.digest), Without(y, last.digest) + [last];
      SplitForgets(x, calls[k], y, last.digest);
      WithoutDigests(y, last.digest);
      DigestsAppend(Without(y, last.digest), last);
    }
  }

  lemma {:induction false} LookupConcat(a: seq<Anchor>, b: seq<Anchor>, d: Text)
    requires d !in Digests(a)
    ensures Lookup(a + b, d) == Lookup(b, d)
  {
    if a == [] {
      assert a + b == b;
    } else {
      LookupConcat(a[1..], b, d);
      assert (a + b)[1..] == a[1..] + b;
    }
  }

  lemma {:induction false} LookupAbsent(s: seq<Anchor>, d: Text)
    requires d !in Digests(s)
    ensures Lookup(s, d) == None
  {
    if s != [] { LookupAbsent(s[1..], d); }
  }

  lemma KeyedMiddle(older: seq<Anchor>, a: Anchor, newer: seq<Anchor>)
    requires Keyed(older + [a] + newer)
    ensures a.digest !in Digests(older) && a.digest !in Digests(newer) && Keyed(newer)
  {
    assert older + [a] + newer == older + ([a] + newer);
    KeyedConcat(older, [a] + newer);
    assert ([a] + newer)[1..] == newer;
  }

  lemma AbsentFromPart(s: seq<Anchor>, cut: nat, d: Text)
    requires cut <= |s| && d !in Digests(s)
    ensures d !in Digests(s[cut..])
  {
    DigestsConcat(s[..cut], s[cut..]);
    assert s == s[..cut] + s[cut..];
  }

  lemma LookupPast(front: seq<Anchor>, a: Anchor, newer: seq<Anchor>)
    requires a.digest !in Digests(front)
    ensures Lookup(front + ([a] + newer), a.digest) == Some(a.window)
  {
    LookupConcat(front, [a] + newer, a.digest);
  }

  lemma CutKeeps(older: seq<Anchor>, kept: seq<Anchor>) returns (cut: nat)
    requires |kept| <= MAX_ANCHORS
    ensures cut <= |older| && LastOf(older + kept, MAX_ANCHORS) == older[cut..] + kept
  {
    cut := if |older| + |kept| <= MAX_ANCHORS then 0 else |older| + |kept| - MAX_ANCHORS;
    assert (older + kept)[cut..] == older[cut..] + kept;
  }

  lemma CutDrops(older: seq<Anchor>, newer: seq<Anchor>)
    requires |newer| >= MAX_ANCHORS
    ensures LastOf(older + newer, MAX_ANCHORS) == newer[|newer| - MAX_ANCHORS..]
  {
  }

  lemma RecalledWhileRecent(older: seq<Anchor>, a: Anchor, newer: seq<Anchor>)
    requires a.digest !in Digests(older) && |newer| < MAX_ANCHORS
    ensures Lookup(LastOf(older + ([a] + newer), MAX_ANCHORS), a.digest) == Some(a.window)
  {
    hide *;
    var cut := CutKeeps(older, [a] + newer);
    AbsentFromPart(older, cut, a.digest);
    LookupPast(older[cut..], a, newer);
  }

  lemma ForgottenAfterwards(older: seq<Anchor>, d: Text, newer: seq<Anchor>)
    requires d !in Digests(newer) && |newer| >= MAX_ANCHORS
    ensures Lookup(LastOf(older + newer, MAX_ANCHORS), d) == None
  {
    hide Digests, Lookup, LastOf;
    CutDrops(older, newer);
    AbsentFromPart(newer, |newer| - MAX_ANCHORS, d);
    LookupAbsent(newer[|newer| - MAX_ANCHORS..], d);
  }

  lemma SixtyFour()
    ensures MAX_ANCHORS == 64
  {
  }

  /**
   A digest recalls the window of its last call if fewer than 64 distinct other digests
   were remembered since, and nothing otherwise.
   */
  lemma RecallAnswersLastWindow(calls: seq<Anchor>, k: nat)
    requires k < |calls| && calls[k].digest !in Digests(calls[k + 1..])
    ensures Lookup(Session(calls), calls[k].digest) ==
            if |Digests(calls[k + 1..])| < 64 then Some(calls[k].window) else None
  {
    hide *;
    SixtyFour();
    SessionHoldsMostRecent(calls);
    LatestIsKeyed(calls);
    var older, newer := LatestSplits(calls, k);
    KeyedMiddle(older, calls[k], newer);
    KeyedCounts(newer);
    if |newer| < MAX_ANCHORS {
      assert older + [calls[k]] + newer == older + ([calls[k]] + newer);
      RecalledWhileRecent(older, calls[k], newer);
    } else {
      ForgottenAfterwards(older + [calls[k]], calls[k].digest, newer);
    }
  }

  /** A digest this session never prepared recalls nothing. */
  lemma NeverRememberedRecallsNothing(calls: seq<Anchor>, d: Text)
    requires d !in Digests(calls)
    ensures Lookup(Session(calls), d) == None
  {
    hide Session, LatestCalls, Lookup, Digests, Keyed;
    SessionHoldsMostRecent(calls);
    LatestIsKeyed(calls);
    var all, kept := LatestCalls(calls), Session(calls);
    AbsentFromPart(all, |all| - |kept|, d);
    LookupAbsent(kept, d);
  }
}

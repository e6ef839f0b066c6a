/**
 Exactly which names a capped cohort serves, and exactly when it refuses, by counting
 names: a name is in if it is retained, or reserved, or if too few competing names sort
 before it to fill what is left of the cap.
 */
module CohortSelection {
  import opened Texts
  import opened CohortDeparture

  // ---- Names by counting ------------------------------------------------------

  ghost function RetainedNames(entries: seq<Text>, retained: seq<Text>): set<Text> {
    set x | x in entries && x in retained
  }

  ghost function ReservedNames(entries: seq<Text>, retained: seq<Text>): set<Text> {
    set x | x in entries && x !in retained && x in RESERVED_COHORT_NAMES
  }

  /** The competing names that sort before `x`. */
  ghost function RivalsBefore(entries: seq<Text>, retained: seq<Text>, x: Text): set<Text> {
    set y | y in entries && y !in retained && y !in RESERVED_COHORT_NAMES && Less(y, x)
  }

  function AtMostCap(n: nat, max: nat): nat {
    if n <= max then n else max
  }

  /** What the retained and the reserved names leave of the cap. */
  ghost function Left(entries: seq<Text>, max: nat, retained: seq<Text>): int {
    max - |RetainedNames(entries, retained)| - AtMostCap(|ReservedNames(entries, retained)|, max)
  }

  // ---- Ordered lists without repetition ---------------------------------------

  lemma {:induction false} KeepStrict(s: seq<Text>, names: seq<Text>)
    requires Strict(s)
    ensures Strict(Keep(s, names))
  {
    if s != [] {
      KeepStrict(s[1..], names);
      var rest := Keep(s[1..], names);
      forall k | 0 <= k < |rest| ensures Less(s[0], rest[k]) {
        FilterMembers(s[1..], names, rest[k]);
      }
    }
  }

  lemma {:induction false} StrictLength(s: seq<Text>)
    requires Strict(s)
    ensures |s| == |set x | x in s|
    decreases |s|
  {
    var all := set x | x in s;
    if s == [] {
      assert all == {};
    } else {
      var rest := set x | x in s[1..];
      StrictLength(s[1..]);
      assert s[0] !in rest by { if s[0] in rest { LessTotal(s[0], s[0]); } }
      assert all == rest + {s[0]};
    }
  }

  ghost function Before(s: seq<Text>, x: Text): set<Text> {
    set y | y in s && Less(y, x)
  }

  /** The first `n` are those with fewer than `n` before them. */
  lemma {:induction false} TakeIff(s: seq<Text>, n: nat, x: Text)
    requires Strict(s)
    ensures x in Take(s, n) <==> x in s && |Before(s, x)| < n
    decreases |s|
  {
    hide Take, Before, Strict, Less;
    TakeStep(s, n);
    if s != [] && n > 0 {
      BeforeStep(s, x);
      TakeIff(s[1..], n - 1, x);
    }
  }

  lemma TakeStep(s: seq<Text>, n: nat)
    ensures s == [] || n == 0 ==> Take(s, n) == []
    ensures s != [] && n > 0 ==> Take(s, n) == [s[0]] + Take(s[1..], n - 1)
  {
  }

  lemma BeforeStep(s: seq<Text>, x: Text)
    requires Strict(s) && s != []
    ensures Strict(s[1..])
    ensures x == s[0] ==> x !in s[1..] && |Before(s, x)| == 0
    ensures x in s[1..] ==> |Before(s, x)| == |Before(s[1..], x)| + 1
    ensures x in s <==> x == s[0] || x in s[1..]
  {
    LessTotal(s[0], s[0]);
    if x == s[0] {
      FirstHasNoneBefore(s);
      assert Before(s, x) == {};
    } else if x in s[1..] {
      assert s[0] !in s[1..];
      assert Before(s, x) == Before(s[1..], x) + {s[0]};
    }
  }

  lemma FirstHasNoneBefore(s: seq<Text>)
    requires Strict(s) && s != []
    ensures forall y :: y in s ==> !Less(y, s[0])
  {
    forall y | y in s ensures !Less(y, s[0]) {
      var k :| 0 <= k < |s| && s[k] == y;
      LessTotal(s[0], y);
    }
  }

  // ---- The selection ----------------------------------------------------------

  lemma PartsCounted(entries: seq<Text>, max: nat, retained: seq<Text>)
    requires Once(entries)
    ensures var byName := SortTexts(entries);
            Strict(byName) && Strict(Candidates(byName, retained)) &&
            |Retained(byName, retained)| == |RetainedNames(entries, retained)| &&
            |Reserved(byName, max, retained)| == AtMostCap(|ReservedNames(entries, retained)|, max)
  {
    hide Keep, Drop, SortTexts, Less;
    var byName := SortTexts(entries);
    var others := Drop(byName, retained);
    SortedOnce(entries);
    DropStrict(byName, retained);
    DropStrict(others, RESERVED_COHORT_NAMES);
    KeepStrict(byName, retained);
    KeepStrict(others, RESERVED_COHORT_NAMES);
    StrictLength(Keep(byName, retained));
    StrictLength(Keep(others, RESERVED_COHORT_NAMES));
    forall x ensures x in Keep(byName, retained) <==> x in RetainedNames(entries, retained) {
      SortedMembers(entries, x);
      FilterMembers(byName, retained, x);
    }
    forall x ensures x in Keep(others, RESERVED_COHORT_NAMES) <==> x in ReservedNames(entries, retained) {
      SortedMembers(entries, x);
      FilterMembers(byName, retained, x);
      FilterMembers(others, RESERVED_COHORT_NAMES, x);
    }
    assert (set x | x in Keep(byName, retained)) == RetainedNames(entries, retained);
    assert (set x | x in Keep(others, RESERVED_COHORT_NAMES)) == ReservedNames(entries, retained);
  }

  /** A selection is refused exactly when the retained and the reserved names overflow the cap. */
  lemma ConflictIff(entries: seq<Text>, max: nat, retained: seq<Text>)
    requires Once(entries)
    ensures SelectCohort(entries, max, retained) == Conflict <==>
            |entries| > max && Left(entries, max, retained) < 0
  {
    hide Retained, Reserved, Candidates, Take, SortTexts;
    SortedLength(entries);
    PartsCounted(entries, max, retained);
  }

  /** A negative cap selects nothing, and a cap that does not bind everything. */
  lemma UnboundSelection(entries: seq<Text>, max: int, retained: seq<Text>, x: Text)
    ensures max < 0 && entries != [] ==> SelectCohort(entries, max, retained) == Selected([])
    ensures |entries| <= max ==>
              SelectCohort(entries, max, retained).Selected? &&
              (x in SelectCohort(entries, max, retained).names <==> x in entries)
  {
    hide SortTexts;
    SortedLength(entries);
    SortedMembers(entries, x);
  }

  /** Past the cap, exactly these names are in. */
  lemma SelectedIff(entries: seq<Text>, max: nat, retained: seq<Text>, x: Text)
    requires Once(entries) && |entries| > max && SelectCohort(entries, max, retained).Selected?
    ensures x in SelectCohort(entries, max, retained).names <==>
            x in entries &&
            (x in retained ||
             (if x in RESERVED_COHORT_NAMES then max > 0
              else |RivalsBefore(entries, retained, x)| < Left(entries, max, retained)))
  {
    hide Keep, Drop, Take, SortTexts, Less;
    var byName := SortTexts(entries);
    var others := Drop(byName, retained);
    PartsCounted(entries, max, retained);
    SelectedParts(entries, max, retained, x);
    SortedMembers(entries, x);
    FilterMembers(byName, retained, x);
    FilterMembers(others, RESERVED_COHORT_NAMES, x);
    DropStrict(byName, retained);
    KeepStrict(others, RESERVED_COHORT_NAMES);
    OneReserved(others);
    TakenReserved(Keep(others, RESERVED_COHORT_NAMES), max, x);
    TakeIff(Candidates(byName, retained), Room(entries, max, retained), x);
    forall y
      ensures y in Candidates(byName, retained) <==> y in entries && y !in retained && y !in RESERVED_COHORT_NAMES
    {
      SortedMembers(entries, y);
      FilterMembers(byName, retained, y);
      FilterMembers(others, RESERVED_COHORT_NAMES, y);
    }
    assert Before(Candidates(byName, retained), x) == RivalsBefore(entries, retained, x);
  }

  lemma TakenReserved(s: seq<Text>, max: nat, x: Text)
    requires |s| <= 1
    ensures x in Take(s, max) <==> x in s && max > 0
  {
  }
}

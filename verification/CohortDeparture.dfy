/**
 Which names the capped cohort serves (packages/trust-index/src/fetchRegistry.ts) and how
 a name that left it is classified and cleared (scripts/cohort-identity.ts).

 Entries are their names; the registry lists a live name once. The source view is a
 parameter, as in the program.
 */
module CohortDeparture {
  import opened Texts
  import opened Validate

  const RESERVED_COHORT_NAMES: seq<Text> := [Ascii("io.github.calllint/calllint")]
  const ACTIVE := Ascii("active")

  // ---- Selection ------------------------------------------------------------

  function Keep(s: seq<Text>, names: seq<Text>): seq<Text> {
    if s == [] then [] else (if s[0] in names then [s[0]] else []) + Keep(s[1..], names)
  }

  function Drop(s: seq<Text>, names: seq<Text>): seq<Text> {
    if s == [] then [] else (if s[0] in names then [] else [s[0]]) + Drop(s[1..], names)
  }

  /** `slice(0, n)`. */
  function Take(s: seq<Text>, n: nat): seq<Text> {
    if |s| <= n then s else s[..n]
  }

  datatype Selection = Selected(names: seq<Text>) | Conflict

  function Retained(byName: seq<Text>, retained: seq<Text>): seq<Text> {
    Keep(byName, retained)
  }

  function Reserved(byName: seq<Text>, max: nat, retained: seq<Text>): seq<Text> {
    Take(Keep(Drop(byName, retained), RESERVED_COHORT_NAMES), max)
  }

  function Candidates(byName: seq<Text>, retained: seq<Text>): seq<Text> {
    Drop(Drop(byName, retained), RESERVED_COHORT_NAMES)
  }

  /** The retained, the reserved and the first competing names, up to the cap. */
  function SelectCohort(entries: seq<Text>, max: int, retained: seq<Text>): Selection {
    var byName := SortTexts(entries);
    if |byName| <= max then Selected(byName)
    else if max < 0 then Selected([])
    else
      var kept, reserved := Retained(byName, retained), Reserved(byName, max, retained);
      if |kept| + |reserved| > max then Conflict
      else Selected(SortTexts(kept + reserved + Take(Candidates(byName, retained), max - |kept| - |reserved|)))
  }

  // ---- Classification -------------------------------------------------------

  datatype DepartureClass = Superseded | DeListed | Evicted | NotEstablished

  datatype Departure = Departure(name: Text, class_: DepartureClass)

  /** `status` per name, or None when the source was not consulted. */
  type SourceView = Option<map<Text, Option<Text>>>

  function Competing(currentNames: seq<Text>): seq<Text> {
    Drop(currentNames, RESERVED_COHORT_NAMES)
  }

  predicate BeyondCeiling(name: Text, currentNames: seq<Text>) {
    var competing := SortTexts(Competing(currentNames));
    competing != [] && Less(competing[|competing| - 1], name)
  }

  function ClassifyDeparture(name: Text, currentNames: seq<Text>, source: SourceView): DepartureClass {
    if source.None? then NotEstablished
    else if name !in source.value then DeListed
    else if source.value[name] != Some(ACTIVE) then DeListed
    else if BeyondCeiling(name, currentNames) then Evicted
    else Superseded
  }

  predicate DelistingClears(c: DepartureClass) {
    c == DeListed || c == NotEstablished
  }

  predicate EvictionClears(c: DepartureClass) {
    c == NotEstablished
  }

  predicate AcknowledgementClears(d: Departure, acknowledged: set<Text>, acknowledgedEvictions: set<Text>) {
    (d.name in acknowledged && DelistingClears(d.class_))
    || (d.name in acknowledgedEvictions && EvictionClears(d.class_))
  }

  function Lost(previousNames: seq<Text>, currentNames: seq<Text>): seq<Text> {
    SortTexts(Drop(previousNames, currentNames))
  }

  /** The names the gate still fails on. */
  function Unacknowledged(lost: seq<Text>, currentNames: seq<Text>, source: SourceView,
                          acknowledged: set<Text>, evictions: set<Text>): seq<Text> {
    if lost == [] then []
    else
      (if AcknowledgementClears(Departure(lost[0], ClassifyDeparture(lost[0], currentNames, source)),
                                 acknowledged, evictions)
       then [] else [lost[0]]) +
      Unacknowledged(lost[1..], currentNames, source, acknowledged, evictions)
  }

  // ---- Filters --------------------------------------------------------------

  lemma {:induction false} FilterMembers(s: seq<Text>, names: seq<Text>, x: Text)
    ensures x in Keep(s, names) <==> x in s && x in names
    ensures x in Drop(s, names) <==> x in s && x !in names
  {
    if s != [] { FilterMembers(s[1..], names, x); }
  }

  lemma {:induction false} FilterPartitions(s: seq<Text>, names: seq<Text>)
    ensures |Keep(s, names)| + |Drop(s, names)| == |s|
    ensures multiset(Keep(s, names)) + multiset(Drop(s, names)) == multiset(s)
  {
    if s != [] {
      FilterPartitions(s[1..], names);
      assert s == [s[0]] + s[1..];
    }
  }

  ghost predicate Strict(s: seq<Text>) {
    forall i, j :: 0 <= i < j < |s| ==> Less(s[i], s[j])
  }

  lemma {:induction false} DropStrict(s: seq<Text>, names: seq<Text>)
    requires Strict(s)
    ensures Strict(Drop(s, names))
  {
    if s != [] {
      DropStrict(s[1..], names);
      var rest := Drop(s[1..], names);
      forall k | 0 <= k < |rest|
        ensures Less(s[0], rest[k])
      {
        FilterMembers(s[1..], names, rest[k]);
      }
    }
  }

  /** The registry lists a name once. */
  ghost predicate Once(s: seq<Text>) {
    forall x :: multiset(s)[x] <= 1
  }

  lemma CountedTwice(s: seq<Text>, i: nat, j: nat)
    requires i < j < |s| && s[i] == s[j]
    ensures multiset(s)[s[i]] >= 2
  {
    assert s == s[..j] + s[j..];
    assert s[..j][i] in multiset(s[..j]) && s[j..][0] in multiset(s[j..]);
  }

  lemma SortedOnce(s: seq<Text>)
    requires Once(s)
    ensures Strict(SortTexts(s))
  {
    SortTextsAscends(s);
    var r := SortTexts(s);
    forall i, j | 0 <= i < j < |r|
      ensures Less(r[i], r[j])
    {
      LessTotal(r[i], r[j]);
      if r[i] == r[j] { CountedTwice(r, i, j); }
    }
  }

  lemma SortedMembers(s: seq<Text>, x: Text)
    ensures x in SortTexts(s) <==> x in s
    ensures |SortTexts(s)| == |s|
  {
    assert x in multiset(SortTexts(s)) <==> x in multiset(s);
    assert |multiset(SortTexts(s))| == |SortTexts(s)| && |multiset(s)| == |s|;
  }

  // ---- What a selection keeps -----------------------------------------------

  /** How many candidates get in. */
  function Room(entries: seq<Text>, max: nat, retained: seq<Text>): int {
    max - |Retained(SortTexts(entries), retained)| - |Reserved(SortTexts(entries), max, retained)|
  }

  /** Past the cap: the parts of a selection. */
  lemma SelectedParts(entries: seq<Text>, max: nat, retained: seq<Text>, x: Text)
    requires |entries| > max && SelectCohort(entries, max, retained).Selected?
    ensures var byName := SortTexts(entries);
            Room(entries, max, retained) >= 0 &&
            (x in SelectCohort(entries, max, retained).names <==>
             x in Retained(byName, retained) || x in Reserved(byName, max, retained) ||
             x in Take(Candidates(byName, retained), Room(entries, max, retained)))
  {
    hide *;
    var byName := SortTexts(entries);
    var kept, reserved := Retained(byName, retained), Reserved(byName, max, retained);
    SelectedNames(entries, max, retained);
    var chosen := Take(Candidates(byName, retained), Room(entries, max, retained));
    SortedMembers(kept + reserved + chosen, x);
  }

  lemma SelectedNames(entries: seq<Text>, max: nat, retained: seq<Text>)
    requires |entries| > max && SelectCohort(entries, max, retained).Selected?
    ensures var byName := SortTexts(entries);
            Room(entries, max, retained) >= 0 &&
            SelectCohort(entries, max, retained).names ==
            SortTexts(Retained(byName, retained) + Reserved(byName, max, retained) +
                      Take(Candidates(byName, retained), Room(entries, max, retained)))
  {
    hide Retained, Reserved, Candidates, Take, SortTexts;
    SortedLength(entries);
  }

  /** Nothing served before and still live is ever dropped: the selection refuses instead. */
  lemma RetainedSurvive(entries: seq<Text>, max: nat, retained: seq<Text>, x: Text)
    requires SelectCohort(entries, max, retained).Selected? && x in entries && x in retained
    ensures x in SelectCohort(entries, max, retained).names
  {
    SortedMembers(entries, x);
    if |entries| > max {
      SelectedParts(entries, max, retained, x);
      FilterMembers(SortTexts(entries), retained, x);
    }
  }

  lemma ReservedSurvives(entries: seq<Text>, max: nat, retained: seq<Text>, x: Text)
    requires Once(entries) && max >= 1
    requires SelectCohort(entries, max, retained).Selected? && x in entries && x in RESERVED_COHORT_NAMES
    ensures x in SelectCohort(entries, max, retained).names
  {
    SortedMembers(entries, x);
    if |entries| > max && x !in retained {
      var byName := SortTexts(entries);
      var others := Drop(byName, retained);
      SelectedParts(entries, max, retained, x);
      SortedOnce(entries);
      FilterMembers(byName, retained, x);
      FilterMembers(others, RESERVED_COHORT_NAMES, x);
      DropStrict(byName, retained);
      OneReserved(others);
    } else if |entries| > max {
      RetainedSurvive(entries, max, retained, x);
    }
  }

  lemma OneReserved(s: seq<Text>)
    requires Strict(s)
    ensures |Keep(s, RESERVED_COHORT_NAMES)| <= 1
    decreases |s|
  {
    if s != [] {
      OneReserved(s[1..]);
      if s[0] in RESERVED_COHORT_NAMES { NoneReserved(s[1..], s[0]); }
    }
  }

  lemma {:induction false} NoneReserved(s: seq<Text>, x: Text)
    requires x in RESERVED_COHORT_NAMES && forall k :: 0 <= k < |s| ==> Less(x, s[k])
    ensures Keep(s, RESERVED_COHORT_NAMES) == []
  {
    if s != [] {
      LessTotal(x, s[0]);
      NoneReserved(s[1..], x);
    }
  }

  lemma PartsFromEntries(byName: seq<Text>, max: nat, retained: seq<Text>, room: nat)
    ensures multiset(Retained(byName, retained) + Reserved(byName, max, retained) +
                     Take(Candidates(byName, retained), room)) <=
            multiset(byName)
  {
    hide Keep, Drop, Take;
    var others := Drop(byName, retained);
    FilterPartitions(byName, retained);
    FilterPartitions(others, RESERVED_COHORT_NAMES);
    TakeIsPart(Keep(others, RESERVED_COHORT_NAMES), max);
    TakeIsPart(Candidates(byName, retained), room);
  }

  lemma RoomIsFilled(byName: seq<Text>, max: nat, retained: seq<Text>, room: nat)
    requires |byName| > max && |Retained(byName, retained)| + |Reserved(byName, max, retained)| + room == max
    ensures |Take(Candidates(byName, retained), room)| == room
  {
    hide Keep, Drop, Take;
    var others := Drop(byName, retained);
    FilterPartitions(byName, retained);
    FilterPartitions(others, RESERVED_COHORT_NAMES);
    TakeIsPart(Keep(others, RESERVED_COHORT_NAMES), max);
    TakeIsPart(Candidates(byName, retained), room);
  }

  /** The cap is a ceiling that is always filled, in name order, from the live entries only. */
  lemma SelectionFillsTheCap(entries: seq<Text>, max: nat, retained: seq<Text>)
    requires SelectCohort(entries, max, retained).Selected?
    ensures var names := SelectCohort(entries, max, retained).names;
            |names| == (if |entries| <= max then |entries| else max) && Ascending(names) &&
            multiset(names) <= multiset(entries)
  {
    hide Retained, Reserved, Candidates, Take, Ascending;
    var byName := SortTexts(entries);
    SortedLength(entries);
    SortTextsAscends(entries);
    if |entries| > max {
      var room := Room(entries, max, retained);
      SelectedNames(entries, max, retained);
      PartsFromEntries(byName, max, retained, room);
      RoomIsFilled(byName, max, retained, room);
      var parts := Retained(byName, retained) + Reserved(byName, max, retained) +
                   Take(Candidates(byName, retained), room);
      SortedLength(parts);
      SortTextsAscends(parts);
    }
  }

  lemma SortedLength(s: seq<Text>)
    ensures |SortTexts(s)| == |s|
  {
    assert |multiset(SortTexts(s))| == |SortTexts(s)| && |multiset(s)| == |s|;
  }

  lemma TakeIsPart(s: seq<Text>, n: nat)
    ensures multiset(Take(s, n)) <= multiset(s)
    ensures |Take(s, n)| == if |s| <= n then |s| else n
  {
    if |s| > n { assert s == s[..n] + s[n..]; }
  }

  // ---- Why a live name is missing -------------------------------------------

  /** A live name the cap left out stands after every competing name it let in. */
  lemma LeftOutStandsAfter(entries: seq<Text>, max: nat, retained: seq<Text>, name: Text, x: Text)
    requires Once(entries) && max >= 1 && SelectCohort(entries, max, retained).Selected?
    requires name in entries && name !in SelectCohort(entries, max, retained).names
    requires x in SelectCohort(entries, max, retained).names && x !in retained && x !in RESERVED_COHORT_NAMES
    ensures Less(x, name)
  {
    if name in RESERVED_COHORT_NAMES { ReservedSurvives(entries, max, retained, name); }
    if name in retained { RetainedSurvive(entries, max, retained, name); }
    SortedMembers(entries, name);
    SelectedParts(entries, max, retained, name);
    SelectedParts(entries, max, retained, x);
    var byName := SortTexts(entries);
    var others := Drop(byName, retained);
    var candidates := Drop(others, RESERVED_COHORT_NAMES);
    SortedOnce(entries);
    DropStrict(byName, retained);
    DropStrict(others, RESERVED_COHORT_NAMES);
    FilterMembers(byName, retained, name);
    FilterMembers(others, RESERVED_COHORT_NAMES, name);
    FilterMembers(byName, retained, x);
    FilterMembers(others, RESERVED_COHORT_NAMES, x);
    FirstAreLess(candidates, Room(entries, max, retained), x, name);
  }

  lemma FirstAreLess(s: seq<Text>, n: nat, x: Text, y: Text)
    requires Strict(s) && x in Take(s, n) && y in s && y !in Take(s, n)
    ensures Less(x, y)
  {
  }

  lemma LastIsGreatest(s: seq<Text>, x: Text)
    requires Ascending(s) && x in s
    ensures AtMost(x, s[|s| - 1])
  {
    LessTotal(x, x);
  }

  lemma AtMostThenLess(a: Text, b: Text, c: Text)
    requires AtMost(a, b) && Less(b, c)
    ensures Less(a, c)
  {
    LessTotal(a, b);
    if Less(a, b) { LessTransitive(a, b, c); }
  }

  /** A name stands beyond the ceiling when something competed and everything that did sorts before it. */
  lemma BeyondCeilingMeans(name: Text, currentNames: seq<Text>)
    ensures BeyondCeiling(name, currentNames) <==>
            Competing(currentNames) != [] && forall x :: x in Competing(currentNames) ==> Less(x, name)
  {
    hide Less, AtMost, Ascending, SortTexts, Competing;
    var competing := Competing(currentNames);
    var sorted := SortTexts(competing);
    SortedLength(competing);
    SortTextsAscends(competing);
    if competing != [] {
      var last := sorted[|sorted| - 1];
      SortedMembers(competing, last);
      forall x | x in competing
        ensures Less(last, name) ==> Less(x, name)
      {
        SortedMembers(competing, x);
        LastIsGreatest(sorted, x);
        if Less(last, name) { AtMostThenLess(x, last, name); }
      }
    }
  }

  ghost predicate Live(source: SourceView, name: Text) {
    source.Some? && name in source.value && source.value[name] == Some(Ascii("active"))
  }

  /**
   A live name the cap removed is called evicted exactly when some name competed for a slot
   and every retained name served sorts before it; otherwise it is called superseded, which
   the report prints as a defect.
   */
  lemma EvictedIff(entries: seq<Text>, max: nat, retained: seq<Text>, source: SourceView, name: Text)
    requires Once(entries) && max >= 1 && SelectCohort(entries, max, retained).Selected?
    requires name in entries && name !in SelectCohort(entries, max, retained).names && Live(source, name)
    ensures var current := SelectCohort(entries, max, retained).names;
            ClassifyDeparture(name, current, source) ==
            if Competing(current) != [] &&
               forall x :: x in current && x in retained && x !in RESERVED_COHORT_NAMES ==> Less(x, name)
            then Evicted else Superseded
  {
    hide SelectCohort, BeyondCeiling, Competing;
    var current := SelectCohort(entries, max, retained).names;
    BeyondCeilingMeans(name, current);
    forall x
      ensures x in Competing(current) <==> x in current && x !in RESERVED_COHORT_NAMES
    {
      CompetingMembers(current, x);
    }
    forall x | x in current && x !in retained && x !in RESERVED_COHORT_NAMES
      ensures Less(x, name)
    {
      LeftOutStandsAfter(entries, max, retained, name, x);
    }
  }

  lemma CompetingMembers(currentNames: seq<Text>, x: Text)
    ensures x in Competing(currentNames) <==> x in currentNames && x !in RESERVED_COHORT_NAMES
  {
    FilterMembers(currentNames, RESERVED_COHORT_NAMES, x);
  }

  /** The rule without retained names: any live name the cap removed is evicted, never superseded. */
  lemma CapAloneEvicts(entries: seq<Text>, max: nat, source: SourceView, name: Text)
    requires Once(entries) && max >= 1 && SelectCohort(entries, max, []).Selected?
    requires name in entries && name !in SelectCohort(entries, max, []).names && Live(source, name)
    requires Competing(SelectCohort(entries, max, []).names) != []
    ensures ClassifyDeparture(name, SelectCohort(entries, max, []).names, source) == Evicted
  {
    hide SelectCohort, ClassifyDeparture, Competing;
    EvictedIff(entries, max, [], source, name);
  }

  /** A name left the cohort when it was in the previous one and is not in this one. */
  lemma LostIsDifference(previousNames: seq<Text>, currentNames: seq<Text>, name: Text)
    ensures name in Lost(previousNames, currentNames) <==> name in previousNames && name !in currentNames
  {
    FilterMembers(previousNames, currentNames, name);
    SortedMembers(Drop(previousNames, currentNames), name);
  }

  /** When the previous cohort is what is retained, only names gone from the source are ever lost. */
  lemma RetentionLosesOnlyDeListed(entries: seq<Text>, max: nat, previousNames: seq<Text>,
                                   source: SourceView, name: Text)
    requires SelectCohort(entries, max, previousNames).Selected?
    requires source.Some? && forall n :: Live(source, n) <==> n in entries
    requires name in Lost(previousNames, SelectCohort(entries, max, previousNames).names)
    ensures ClassifyDeparture(name, SelectCohort(entries, max, previousNames).names, source) == DeListed
  {
    hide SelectCohort, Lost;
    var current := SelectCohort(entries, max, previousNames).names;
    LostIsDifference(previousNames, current, name);
    if name in entries { RetainedSurvive(entries, max, previousNames, name); }
    assert !Live(source, name);
  }

  /** What an acknowledgement can silence: an unconsulted departure, or one the source confirms gone. */
  lemma ClearedIff(name: Text, currentNames: seq<Text>, source: SourceView,
                   acknowledged: set<Text>, evictions: set<Text>)
    ensures AcknowledgementClears(Departure(name, ClassifyDeparture(name, currentNames, source)),
                                  acknowledged, evictions) <==>
            if source.None? then name in acknowledged || name in evictions
            else name in acknowledged && !Live(source, name)
  {
    hide BeyondCeiling;
  }

  /** The names the gate fails on: the lost ones no acknowledgement clears. */
  lemma {:induction false} UnacknowledgedIff(lost: seq<Text>, currentNames: seq<Text>, source: SourceView,
                                             acknowledged: set<Text>, evictions: set<Text>, name: Text)
    ensures name in Unacknowledged(lost, currentNames, source, acknowledged, evictions) <==>
            name in lost && !AcknowledgementClears(Departure(name, ClassifyDeparture(name, currentNames, source)),
                                                   acknowledged, evictions)
  {
    hide ClassifyDeparture, AcknowledgementClears;
    if lost != [] { UnacknowledgedIff(lost[1..], currentNames, source, acknowledged, evictions, name); }
  }

  /**
   The gate consults no source, so it fails exactly on the lost names that nothing names:
   either acknowledgement, of a de-listing or of an eviction, clears any loss.
   */
  lemma GateFailsIff(lost: seq<Text>, currentNames: seq<Text>, acknowledged: set<Text>, evictions: set<Text>,
                     name: Text)
    ensures name in Unacknowledged(lost, currentNames, None, acknowledged, evictions) <==>
            name in lost && name !in acknowledged && name !in evictions
  {
    UnacknowledgedIff(lost, currentNames, None, acknowledged, evictions, name);
    ClearedIff(name, currentNames, None, acknowledged, evictions);
  }

  /** With a source consulted, no acknowledgement clears a lost name that it shows live. */
  lemma LiveDepartureNeverCleared(lost: seq<Text>, currentNames: seq<Text>, source: SourceView,
                                  acknowledged: set<Text>, evictions: set<Text>, name: Text)
    requires name in lost && Live(source, name)
    ensures name in Unacknowledged(lost, currentNames, source, acknowledged, evictions)
  {
    hide ClassifyDeparture, AcknowledgementClears;
    UnacknowledgedIff(lost, currentNames, source, acknowledged, evictions, name);
    ClearedIff(name, currentNames, source, acknowledged, evictions);
  }

  /** The lost names are listed in order, each as often as it was served. */
  lemma LostInOrder(previousNames: seq<Text>, currentNames: seq<Text>, name: Text)
    ensures Ascending(Lost(previousNames, currentNames))
    ensures name !in currentNames ==> multiset(Lost(previousNames, currentNames))[name] == multiset(previousNames)[name]
  {
    SortTextsAscends(Drop(previousNames, currentNames));
    FilterPartitions(previousNames, currentNames);
    if name !in currentNames {
      FilterMembers(previousNames, currentNames, name);
      assert name !in multiset(Keep(previousNames, currentNames));
    }
  }

  // ---- A retained name past the edge ------------------------------------------

  const FIRST: Text := [97]
  const SECOND: Text := [98]
  const THIRD: Text := [99]

  lemma OneUnitOrder()
    ensures AtMost(FIRST, SECOND) && AtMost(SECOND, THIRD) && AtMost(FIRST, THIRD) && !AtMost(THIRD, FIRST)
  {
  }

  lemma SortedThree()
    ensures SortTexts([FIRST, SECOND, THIRD]) == [FIRST, SECOND, THIRD]
    ensures SortTexts([FIRST, THIRD]) == [FIRST, THIRD] && SortTexts([THIRD] + [] + [FIRST]) == [FIRST, THIRD]
  {
    hide AtMost, Less;
    OneUnitOrder();
    assert SortTexts([THIRD]) == [THIRD] && SortTexts([FIRST]) == [FIRST];
    assert SortTexts([SECOND, THIRD]) == [SECOND, THIRD];
    assert [THIRD] + [] + [FIRST] == [THIRD, FIRST];
    assert SortTexts([THIRD, FIRST]) == InsertText(THIRD, SortTexts([FIRST]));
  }

  lemma FilterFirst(x: Text, rest: seq<Text>, names: seq<Text>)
    ensures Keep([x] + rest, names) == if x in names then [x] + Keep(rest, names) else Keep(rest, names)
    ensures Drop([x] + rest, names) == if x in names then Drop(rest, names) else [x] + Drop(rest, names)
  {
    assert ([x] + rest)[1..] == rest;
  }

  lemma NotReserved(x: Text)
    requires |x| == 1
    ensures x !in RESERVED_COHORT_NAMES
  {
    assert |RESERVED_COHORT_NAMES[0]| > 1;
  }

  lemma PartsOfThree()
    ensures Retained([FIRST, SECOND, THIRD], [THIRD]) == [THIRD]
    ensures Reserved([FIRST, SECOND, THIRD], 2, [THIRD]) == []
    ensures Candidates([FIRST, SECOND, THIRD], [THIRD]) == [FIRST, SECOND]
    ensures Competing([FIRST, THIRD]) == [FIRST, THIRD]
  {
    hide RESERVED_COHORT_NAMES;
    NotReserved(FIRST);
    NotReserved(SECOND);
    NotReserved(THIRD);
    assert [FIRST, SECOND, THIRD] == [FIRST] + ([SECOND] + ([THIRD] + [])) &&
           [FIRST, SECOND] == [FIRST] + ([SECOND] + []);
    assert [FIRST, THIRD] == [FIRST] + ([THIRD] + []);
    FilterFirst(FIRST, [SECOND] + ([THIRD] + []), [THIRD]);
    FilterFirst(SECOND, [THIRD] + [], [THIRD]);
    FilterFirst(THIRD, [], [THIRD]);
    FilterFirst(FIRST, [SECOND] + [], RESERVED_COHORT_NAMES);
    FilterFirst(SECOND, [], RESERVED_COHORT_NAMES);
    FilterFirst(FIRST, [THIRD] + [], RESERVED_COHORT_NAMES);
    FilterFirst(THIRD, [], RESERVED_COHORT_NAMES);
  }

  /** One retained name sorting past the edge makes the cap's own eviction look like a defect. */
  lemma RetainedNameHidesEviction()
    ensures SelectCohort([FIRST, SECOND, THIRD], 2, [THIRD]) == Selected([FIRST, THIRD])
    ensures ClassifyDeparture(SECOND, [FIRST, THIRD], Some(map[SECOND := Some(ACTIVE)])) == Superseded
  {
    hide Retained, Reserved, Candidates, Competing, SortTexts;
    SortedThree();
    PartsOfThree();
    assert Take([FIRST, SECOND], 1) == [FIRST];
    assert !Less(THIRD, SECOND);
  }
}

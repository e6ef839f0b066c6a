/**
 What the reported pointers say. A repeated member is named by its chain: the raw keys
 that lead to it from the root. Each chain is printed with a slash before every key.
 */
module DuplicatePointers {
  import opened Texts
  import opened JsonSyntax
  import opened DuplicateKeys
  import opened DuplicateKeysTheorems

  type Chain = seq<Text>

  function ChainText(c: Chain): Text {
    if c == [] then [] else ['/' as int] + (c[0] + ChainText(c[1..]))
  }

  function ChainTexts(cs: seq<Chain>): seq<Text> {
    seq(|cs|, k requires 0 <= k < |cs| => ChainText(cs[k]))
  }

  /** The chains of members whose raw spelling occurred earlier in the same object, below `above`. */
  function ValueChains(v: Value, above: Chain): seq<Chain> {
    match v
    case Scalar(_) => []
    case Str(_) => []
    case Arr(elems) => ElemsChains(elems, above)
    case Obj(members) => MembersChains(members, above, [])
  }

  function ElemsChains(es: Elems, above: Chain): seq<Chain> {
    if es.ElemsEnd? then [] else ValueChains(es.value, above) + ElemsChains(es.rest, above)
  }

  function MembersChains(ms: Members, above: Chain, earlier: seq<Text>): seq<Chain> {
    if ms.MembersEnd? then []
    else
      var chain := above + [SpellingText(ms.key)];
      (if SpellingText(ms.key) in earlier then [chain] else []) +
      (ValueChains(ms.value, chain) + MembersChains(ms.rest, above, earlier + [SpellingText(ms.key)]))
  }

  lemma {:induction false} ChainGrows(above: Chain, key: Text)
    ensures ChainText(above + [key]) == ChainText(above) + (['/' as int] + key)
    decreases |above|
  {
    if above == [] {
      assert ChainText([key]) == ['/' as int] + (key + []);
      assert key + [] == key && [] + [key] == [key];
    } else {
      assert (above + [key])[1..] == above[1..] + [key];
      ChainGrows(above[1..], key);
    }
  }

  lemma PointerOfChain(above: Chain, key: Text)
    ensures Pointer(ChainText(above), key) == ChainText(above + [key])
  {
    ChainGrows(above, key);
  }

  lemma TextsConcat(a: seq<Chain>, b: seq<Chain>)
    ensures ChainTexts(a + b) == ChainTexts(a) + ChainTexts(b)
  {
  }

  lemma {:induction false} ValuePointers(v: Value, above: Chain)
    ensures ValueDups(v, ChainText(above)) == ChainTexts(ValueChains(v, above))
  {
    hide ChainText;
    match v
    case Arr(elems) => ElemsPointers(elems, above);
    case Obj(members) => MembersPointers(members, above, []);
    case _ =>
  }

  lemma {:induction false} ElemsPointers(es: Elems, above: Chain)
    ensures ElemsDups(es, ChainText(above)) == ChainTexts(ElemsChains(es, above))
  {
    hide ChainText;
    if es.Elem? {
      ValuePointers(es.value, above);
      ElemsPointers(es.rest, above);
      TextsConcat(ValueChains(es.value, above), ElemsChains(es.rest, above));
    }
  }

  lemma {:induction false} MembersPointers(ms: Members, above: Chain, earlier: seq<Text>)
    ensures MembersDups(ms, ChainText(above), earlier) == ChainTexts(MembersChains(ms, above, earlier))
  {
    hide ChainText, Pointer;
    if ms.Member? {
      var key := SpellingText(ms.key);
      var chain, more := above + [key], earlier + [key];
      PointerOfChain(above, key);
      ValuePointers(ms.value, chain);
      MembersPointers(ms.rest, above, more);
      var here: seq<Chain> := if key in earlier then [chain] else [];
      TextsConcat(here, ValueChains(ms.value, chain) + MembersChains(ms.rest, above, more));
      TextsConcat(ValueChains(ms.value, chain), MembersChains(ms.rest, above, more));
    }
  }

  /** On every well-formed text: the report is the printed chains of the repeated members, sorted. */
  lemma ReportPrintsChains(d: Document)
    requires WellFormedDocument(d)
    ensures Run(DocumentText(d), START).dups == ChainTexts(ValueChains(d.value, []))
    ensures multiset(SortTexts(Run(DocumentText(d), START).dups)) == multiset(ChainTexts(ValueChains(d.value, [])))
  {
    ScanCollectsDuplicates(d);
    ValuePointers(d.value, []);
  }

  // ---- The chains name repeated members, all of them --------------------------

  /** The object `target` is reached from `v` by the raw keys of `chain`, through any arrays. */
  ghost predicate Reaches(v: Value, chain: Chain, target: Members)
    decreases v
  {
    match v
    case Scalar(_) => false
    case Str(_) => false
    case Arr(elems) => ElemsReach(elems, chain, target)
    case Obj(members) => (chain == [] && members == target) || MembersReach(members, chain, target)
  }

  ghost predicate ElemsReach(es: Elems, chain: Chain, target: Members)
    decreases es
  {
    es.Elem? && (Reaches(es.value, chain, target) || ElemsReach(es.rest, chain, target))
  }

  ghost predicate MembersReach(ms: Members, chain: Chain, target: Members)
    decreases ms
  {
    ms.Member? &&
    ((chain != [] && chain[0] == SpellingText(ms.key) && Reaches(ms.value, chain[1..], target)) ||
     MembersReach(ms.rest, chain, target))
  }

  /** The raw keys of an object's members, in order. */
  function RawKeys(ms: Members): seq<Text> {
    if ms.MembersEnd? then [] else [SpellingText(ms.key)] + RawKeys(ms.rest)
  }

  /** Some occurrence of the key comes after another one, or after one in `earlier`. */
  ghost predicate Repeats(keys: seq<Text>, earlier: seq<Text>, key: Text) {
    exists j :: 0 <= j < |keys| && keys[j] == key && (key in earlier || key in keys[..j])
  }

  /** The last key of the chain repeats in an object that the keys before it reach. */
  ghost predicate NamesRepeated(v: Value, chain: Chain) {
    chain != [] &&
    exists target :: Reaches(v, chain[..|chain| - 1], target) && Repeats(RawKeys(target), [], chain[|chain| - 1])
  }

  ghost predicate ElemsName(es: Elems, chain: Chain) {
    chain != [] &&
    exists target :: ElemsReach(es, chain[..|chain| - 1], target) && Repeats(RawKeys(target), [], chain[|chain| - 1])
  }

  ghost predicate MembersName(ms: Members, chain: Chain) {
    chain != [] &&
    exists target :: MembersReach(ms, chain[..|chain| - 1], target) && Repeats(RawKeys(target), [], chain[|chain| - 1])
  }

  ghost predicate Below(above: Chain, c: Chain) {
    |above| < |c| && c[..|above|] == above
  }

  lemma RepeatsCons(key0: Text, rest: seq<Text>, earlier: seq<Text>, key: Text)
    ensures Repeats([key0] + rest, earlier, key) <==>
            (key == key0 && key in earlier) || Repeats(rest, earlier + [key0], key)
  {
    var keys := [key0] + rest;
    if key == key0 && key in earlier { assert keys[0] == key; }
    if j :| 0 <= j < |rest| && rest[j] == key && (key in earlier + [key0] || key in rest[..j]) {
      assert keys[j + 1] == key && keys[..j + 1] == [key0] + rest[..j];
    }
    if j :| 0 < j < |keys| && keys[j] == key && (key in earlier || key in keys[..j]) {
      assert rest[j - 1] == key && keys[..j] == [key0] + rest[..j - 1];
    }
  }

  lemma {:induction false} ValueChainsName(v: Value, above: Chain, c: Chain)
    ensures c in ValueChains(v, above) <==> Below(above, c) && NamesRepeated(v, c[|above|..])
  {
    hide Repeats;
    match v
    case Arr(elems) =>
      ElemsChainsName(elems, above, c);
    case Obj(members) =>
      MembersChainsName(members, above, [], c);
      if Below(above, c) { ObjNames(members, c[|above|..]); }
    case _ =>
  }

  /** In an object: a key of its own repeats, or a chain through a member names one. */
  lemma ObjNames(ms: Members, chain: Chain)
    requires chain != []
    ensures NamesRepeated(Obj(ms), chain) <==>
            (|chain| == 1 && Repeats(RawKeys(ms), [], chain[0])) || MembersName(ms, chain)
  {
    hide Repeats;
    var front := chain[..|chain| - 1];
    if |chain| == 1 && Repeats(RawKeys(ms), [], chain[0]) { assert Reaches(Obj(ms), front, ms); }
    if target :| MembersReach(ms, front, target) && Repeats(RawKeys(target), [], chain[|chain| - 1]) {
      assert Reaches(Obj(ms), front, target);
    }
  }

  lemma {:induction false} ElemsChainsName(es: Elems, above: Chain, c: Chain)
    ensures c in ElemsChains(es, above) <==> Below(above, c) && ElemsName(es, c[|above|..])
  {
    hide Repeats;
    if es.Elem? {
      ValueChainsName(es.value, above, c);
      ElemsChainsName(es.rest, above, c);
      if Below(above, c) { ElemNames(es, c[|above|..]); }
    }
  }

  lemma ElemNames(es: Elems, chain: Chain)
    requires es.Elem? && chain != []
    ensures ElemsName(es, chain) <==> NamesRepeated(es.value, chain) || ElemsName(es.rest, chain)
  {
    hide Repeats;
    var front := chain[..|chain| - 1];
    if target :| Reaches(es.value, front, target) && Repeats(RawKeys(target), [], chain[|chain| - 1]) {
      assert ElemsReach(es, front, target);
    }
    if target :| ElemsReach(es.rest, front, target) && Repeats(RawKeys(target), [], chain[|chain| - 1]) {
      assert ElemsReach(es, front, target);
    }
  }

  lemma {:induction false} MembersChainsName(ms: Members, above: Chain, earlier: seq<Text>, c: Chain)
    ensures c in MembersChains(ms, above, earlier) <==>
            Below(above, c) &&
            ((|c| == |above| + 1 && Repeats(RawKeys(ms), earlier, c[|above|])) || MembersName(ms, c[|above|..]))
  {
    hide NamesRepeated, MembersName;
    if ms.Member? {
      hide Repeats;
      var key := SpellingText(ms.key);
      var chain := above + [key];
      ValueChainsName(ms.value, chain, c);
      MembersChainsName(ms.rest, above, earlier + [key], c);
      if Below(above, c) {
        RepeatsCons(key, RawKeys(ms.rest), earlier, c[|above|]);
        MemberNames(ms, c[|above|..]);
        assert c == chain <==> |c| == |above| + 1 && c[|above|] == key;
        BelowKey(above, key, c);
      } else {
        if c == chain || Below(chain, c) { BelowShorter(above, key, c); }
      }
    } else {
      hide Repeats;
      NothingNamed(ms, above, earlier, c);
    }
  }

  lemma NothingNamed(ms: Members, above: Chain, earlier: seq<Text>, c: Chain)
    requires ms.MembersEnd?
    ensures Below(above, c) ==> !Repeats(RawKeys(ms), earlier, c[|above|]) && !MembersName(ms, c[|above|..])
  {
  }

  lemma BelowKey(above: Chain, key: Text, c: Chain)
    requires Below(above, c)
    ensures Below(above + [key], c) <==> |c| > |above| + 1 && c[|above|] == key
    ensures Below(above + [key], c) ==> c[|above|..][1..] == c[|above + [key]|..]
  {
    if |c| > |above| + 1 { assert c[..|above| + 1] == c[..|above|] + [c[|above|]]; }
  }

  lemma BelowShorter(above: Chain, key: Text, c: Chain)
    requires c == above + [key] || Below(above + [key], c)
    ensures Below(above, c)
  {
    assert c[..|above|] == c[..|above| + 1][..|above|];
  }

  lemma MemberNames(ms: Members, chain: Chain)
    requires ms.Member? && chain != []
    ensures MembersName(ms, chain) <==>
            (|chain| > 1 && chain[0] == SpellingText(ms.key) && NamesRepeated(ms.value, chain[1..])) ||
            MembersName(ms.rest, chain)
  {
    hide Repeats;
    var front, last := chain[..|chain| - 1], chain[|chain| - 1];
    if |chain| > 1 {
      assert chain[1..][..|chain| - 2] == front[1..] && chain[1..][|chain| - 2] == last;
      if chain[0] == SpellingText(ms.key) {
        if target :| Reaches(ms.value, front[1..], target) && Repeats(RawKeys(target), [], last) {
          assert MembersReach(ms, front, target);
        }
      }
    }
    if target :| MembersReach(ms.rest, front, target) && Repeats(RawKeys(target), [], last) {
      assert MembersReach(ms, front, target);
    }
  }

  /**
   A pointer is reported exactly when it prints a chain whose last raw key repeats in an
   object that the keys before it reach.
   */
  lemma ReportedIff(d: Document, pointer: Text)
    requires WellFormedDocument(d)
    ensures pointer in SortTexts(Run(DocumentText(d), START).dups) <==>
            exists chain :: NamesRepeated(d.value, chain) && pointer == ChainText(chain)
  {
    hide ChainText, NamesRepeated;
    ReportPrintsChains(d);
    var chains := ValueChains(d.value, []);
    var report := SortTexts(Run(DocumentText(d), START).dups);
    assert pointer in multiset(report) <==> pointer in multiset(ChainTexts(chains));
    if pointer in ChainTexts(chains) {
      var k :| 0 <= k < |chains| && ChainText(chains[k]) == pointer;
      ValueChainsName(d.value, [], chains[k]);
      assert chains[k][0..] == chains[k];
    }
    if chain :| NamesRepeated(d.value, chain) && pointer == ChainText(chain) {
      ValueChainsName(d.value, [], chain);
      NamedIsBelow(d.value, chain);
      var k :| 0 <= k < |chains| && chains[k] == chain;
      assert ChainTexts(chains)[k] == pointer;
    }
  }

  lemma NamedIsBelow(v: Value, chain: Chain)
    requires NamesRepeated(v, chain)
    ensures Below([], chain) && chain[0..] == chain
  {
  }
}

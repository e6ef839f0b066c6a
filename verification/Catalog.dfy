/**
 The presentation catalog and its digests
 (packages/trust-index/src/safe-install/presentationDigest.ts).

 `hashJson` is injective on canonical JSON, so a digest is kept as what it hashes.
 */
module Catalog {
  import opened Texts

  datatype SectionName =
    DecisionCopy | AuthorityCopy | SectionTitles | GuardConversion | AgentRelayCopy | Layout | Tokens | Overrides

  datatype Level = L0 | L1 | L2

  function LevelOf(s: SectionName): Level {
    match s
    case Tokens => L0
    case AuthorityCopy => L2
    case _ => L1
  }

  const DECLARED: seq<SectionName> :=
    [DecisionCopy, AuthorityCopy, SectionTitles, GuardConversion, AgentRelayCopy, Layout, Tokens, Overrides]

  /** The canonical document: `schema` and `locale` (as one key), version, present sections. */
  datatype Content = Content(identity: int, configVersion: Option<int>, sections: map<SectionName, int>)

  /** A parsed catalog; `spelling` is what only `JSON.stringify` sees: key order and unhashed keys. */
  datatype Document = Document(content: Content, spelling: int)

  const EMPTY_CONTENT := Content(0, None, map[])
  const EMPTY_DOCUMENT := Document(EMPTY_CONTENT, 0)

  datatype Digest = OfContent(content: Content) | OfLevel(sections: map<SectionName, int>) | Foreign(text: int)

  datatype DigestSet = DigestSet(aggregate: Digest, l0: Digest, l1: Digest, l2: Digest, sections: seq<SectionName>)

  function SectionsAt(c: Content, level: Level): map<SectionName, int> {
    map s | s in c.sections && LevelOf(s) == level :: c.sections[s]
  }

  function Present(c: Content, names: seq<SectionName>): seq<SectionName> {
    if names == [] then []
    else (if names[0] in c.sections then [names[0]] else []) + Present(c, names[1..])
  }

  function PresentationDigest(c: Content): DigestSet {
    DigestSet(OfContent(c), OfLevel(SectionsAt(c, L0)),
              OfLevel(SectionsAt(c, L1)), OfLevel(SectionsAt(c, L2)), Present(c, DECLARED))
  }

  /** A content change moves the aggregate, and moves a level's digest iff it lies in that level. */
  lemma LevelDigestsLocaliseChange(a: Content, b: Content)
    requires a.identity == b.identity && a.configVersion == b.configVersion
    ensures PresentationDigest(a).aggregate == PresentationDigest(b).aggregate <==>
            (PresentationDigest(a).l0 == PresentationDigest(b).l0 &&
             PresentationDigest(a).l1 == PresentationDigest(b).l1 &&
             PresentationDigest(a).l2 == PresentationDigest(b).l2)
  {
    if SectionsAt(a, L0) == SectionsAt(b, L0) && SectionsAt(a, L1) == SectionsAt(b, L1)
       && SectionsAt(a, L2) == SectionsAt(b, L2) {
      forall s: SectionName
        ensures s in a.sections <==> s in b.sections
        ensures s in a.sections ==> a.sections[s] == b.sections[s]
      {
        assert s in a.sections <==> s in SectionsAt(a, LevelOf(s));
        assert s in b.sections <==> s in SectionsAt(b, LevelOf(s));
        assert LevelOf(s) == L0 || LevelOf(s) == L1 || LevelOf(s) == L2;
      }
      assert a.sections == b.sections;
    }
  }

  /** Both have the section, with one value, or neither has it. */
  predicate Agree(a: Content, b: Content, s: SectionName) {
    (s in a.sections <==> s in b.sections) && (s in a.sections ==> a.sections[s] == b.sections[s])
  }

  /** Which change moves which level's digest: tokens, security explanations, or any other copy. */
  lemma LevelDigestMovesIff(a: Content, b: Content)
    ensures PresentationDigest(a).l0 == PresentationDigest(b).l0 <==> Agree(a, b, Tokens)
    ensures PresentationDigest(a).l2 == PresentationDigest(b).l2 <==> Agree(a, b, AuthorityCopy)
    ensures PresentationDigest(a).l1 == PresentationDigest(b).l1 <==>
            Agree(a, b, DecisionCopy) && Agree(a, b, SectionTitles) && Agree(a, b, GuardConversion) &&
            Agree(a, b, AgentRelayCopy) && Agree(a, b, Layout) && Agree(a, b, Overrides)
  {
    hide Present, LevelOf;
    Levels();
    SameLevelIff(a, b, L0);
    SameLevelIff(a, b, L1);
    SameLevelIff(a, b, L2);
  }

  lemma Levels()
    ensures forall s :: LevelOf(s) == L0 <==> s == Tokens
    ensures forall s :: LevelOf(s) == L2 <==> s == AuthorityCopy
  {
  }

  lemma SameLevelIff(a: Content, b: Content, level: Level)
    ensures SectionsAt(a, level) == SectionsAt(b, level) <==> forall s :: LevelOf(s) == level ==> Agree(a, b, s)
  {
    var x, y := SectionsAt(a, level), SectionsAt(b, level);
    if x == y {
      forall s | LevelOf(s) == level ensures Agree(a, b, s) {
        assert s in x <==> s in a.sections;
        assert s in y <==> s in b.sections;
        if s in x { assert x[s] == y[s]; }
      }
    }
    if forall s :: LevelOf(s) == level ==> Agree(a, b, s) {
      forall s ensures s in x <==> s in y { if LevelOf(s) == level { assert Agree(a, b, s); } }
      forall s | s in x ensures x[s] == y[s] { assert Agree(a, b, s); }
    }
  }

  /** The version is in the aggregate and in no level. */
  lemma VersionMovesAggregateOnly(c: Content, version: Option<int>)
    ensures var d, e := PresentationDigest(c), PresentationDigest(c.(configVersion := version));
            e == d.(aggregate := e.aggregate) && (e.aggregate == d.aggregate <==> version == c.configVersion)
  {
    var c' := c.(configVersion := version);
    SamePresent(c, c', DECLARED);
    assert forall level :: SectionsAt(c', level) == SectionsAt(c, level);
  }

  lemma {:induction false} SamePresent(a: Content, b: Content, names: seq<SectionName>)
    requires a.sections == b.sections
    ensures Present(a, names) == Present(b, names)
  {
    if names != [] { SamePresent(a, b, names[1..]); }
  }

  /** The listed sections are those present, each once, as the document declares them. */
  lemma SectionsAreListed(c: Content)
    ensures var sections := PresentationDigest(c).sections;
            (forall s :: s in sections <==> s in c.sections) &&
            forall i, j :: 0 <= i < j < |sections| ==> Declared(sections[i]) < Declared(sections[j])
  {
    hide Declared, Present;
    DeclaredOrder();
    PresentInOrder(c, DECLARED);
  }

  /** Its place in the declaration. */
  function Declared(s: SectionName): nat {
    match s
    case DecisionCopy => 0
    case AuthorityCopy => 1
    case SectionTitles => 2
    case GuardConversion => 3
    case AgentRelayCopy => 4
    case Layout => 5
    case Tokens => 6
    case Overrides => 7
  }

  lemma DeclaredOrder()
    ensures forall s: SectionName :: s in DECLARED
    ensures forall i, j :: 0 <= i < j < |DECLARED| ==> Declared(DECLARED[i]) < Declared(DECLARED[j])
  {
    forall s: SectionName ensures s in DECLARED { assert DECLARED[Declared(s)] == s; }
    forall k | 0 <= k < |DECLARED| ensures Declared(DECLARED[k]) == k {}
  }

  lemma {:induction false} PresentInOrder(c: Content, names: seq<SectionName>)
    requires forall i, j :: 0 <= i < j < |names| ==> Declared(names[i]) < Declared(names[j])
    ensures forall s :: s in Present(c, names) <==> s in names && s in c.sections
    ensures forall i, j :: 0 <= i < j < |Present(c, names)| ==>
              Declared(Present(c, names)[i]) < Declared(Present(c, names)[j])
  {
    hide Declared;
    if names != [] {
      var rest := names[1..];
      assert forall i :: 0 <= i < |rest| ==> rest[i] == names[i + 1];
      PresentInOrder(c, rest);
      var more := Present(c, rest);
      forall k | 0 <= k < |more| ensures Declared(names[0]) < Declared(more[k]) {
        assert more[k] in more;
        var j :| 0 <= j < |rest| && rest[j] == more[k];
        assert names[j + 1] == more[k];
      }
    }
  }
}

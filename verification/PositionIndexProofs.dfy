/**
 What the position scanner computes on every well-formed JSON text: exactly the
 key paths of the syntax tree, each at the place where it occurs first.
 */
module PositionIndexProofs {
  import opened Texts
  import opened JsonSyntax
  import opened PositionIndex

  /** Whose reading of an escape applies: the scanner's or that of RFC 8259, section 7. */
  datatype Reader = AsScanned | AsRfc8259

  function ScannedPiece(p: Piece): (t: Text)
    ensures |t| == 1
  {
    if p.Escape? then EscapeText(p.c) else [PieceValue(p)]
  }

  function KeyValue(reader: Reader, s: Spelling): (t: Text)
    ensures |t| == |s|
  {
    if s == [] then []
    else (if reader.AsScanned? then ScannedPiece(s[0]) else [PieceValue(s[0])]) + KeyValue(reader, s[1..])
  }

  /** A key path and the offset of the key's opening quote. */
  datatype Occurrence = Occurrence(path: Text, at: nat)

  /** The key paths of a value printed at offset `at`, in document order. */
  function ValueKeys(reader: Reader, v: Value, prefix: Text, at: nat): seq<Occurrence> {
    match v
    case Scalar(_) => []
    case Str(_) => []
    case Arr(elems) => ElemsKeys(reader, elems, true, prefix, at + 1)
    case Obj(members) => MembersKeys(reader, members, true, prefix, at + 1)
  }

  function ElemsKeys(reader: Reader, es: Elems, first: bool, prefix: Text, at: nat): seq<Occurrence> {
    match es
    case ElemsEnd(_) => []
    case Elem(before, value, after, rest) =>
      var start := at + |Separator(first)| + |before|;
      ValueKeys(reader, value, prefix, start) +
      ElemsKeys(reader, rest, false, prefix, start + |ValueText(value)| + |after|)
  }

  function MembersKeys(reader: Reader, ms: Members, first: bool, prefix: Text, at: nat): seq<Occurrence> {
    match ms
    case MembersEnd(_) => []
    case Member(before, key, beforeColon, afterColon, value, after, rest) =>
      var quote := at + |Separator(first)| + |before|;
      var path := PathOf(prefix, KeyValue(reader, key));
      var start := quote + |StringText(key)| + |beforeColon| + 1 + |afterColon|;
      [Occurrence(path, quote)] + (ValueKeys(reader, value, path, start) +
      MembersKeys(reader, rest, false, prefix, start + |ValueText(value)| + |after|))
  }

  function DocumentKeys(reader: Reader, d: Document): seq<Occurrence> {
    ValueKeys(reader, d.value, [], |d.before|)
  }

  // ---- One routine at a time ------------------------------------------------

  lemma {:induction false} BlanksEndOver(text: Text, i: nat, w: Text)
    requires StandsAt(text, i, w) && Blank(w)
    ensures BlanksEnd(text, i) == BlanksEnd(text, i + |w|)
    decreases |w|
  {
    if w != [] {
      StandsAtUnit(text, i, w, 0);
      assert w == [w[0]] + w[1..];
      StandsAtConcat(text, i, [w[0]], w[1..]);
      BlanksEndOver(text, i + 1, w[1..]);
    }
  }

  lemma {:induction false} TokenEndOver(text: Text, i: nat, token: Text)
    requires StandsAt(text, i, token)
    requires forall k :: 0 <= k < |token| ==> IsScalarUnit(token[k])
    requires IsBoundary(PeekAt(text, i + |token|))
    ensures TokenEnd(text, i) == i + |token|
    decreases |token|
  {
    if token != [] {
      StandsAtUnit(text, i, token, 0);
      assert token == [token[0]] + token[1..];
      StandsAtConcat(text, i, [token[0]], token[1..]);
      TokenEndOver(text, i + 1, token[1..]);
    }
  }

  lemma HexPrefixOfFour(d0: Unit, d1: Unit, d2: Unit, d3: Unit)
    requires WellFormedPiece(Hex(d0, d1, d2, d3))
    ensures ParseHex([d0, d1, d2, d3]) == Some(HexValue(d0, d1, d2, d3) as int)
  {
    var h := [d0, d1, d2, d3];
    assert h[..3] == [d0, d1, d2] && h[..3][..2] == [d0, d1] && h[..3][..2][..1] == [d0];
    assert HexPrefix([d0]) == Some(HexDigit(d0)) by { assert [d0][..0] == []; assert HexPrefix([]) == None; }
    assert HexPrefix([d0, d1]) == Some(HexDigit(d0) * 16 + HexDigit(d1)) by { assert [d0, d1][..1] == [d0]; }
    assert HexPrefix([d0, d1, d2]) == Some((HexDigit(d0) * 16 + HexDigit(d1)) * 16 + HexDigit(d2)) by {
      assert [d0, d1, d2][..2] == [d0, d1];
    }
    assert TrimLeft(h) == h;
  }

  /** One round of `readString` on one piece. */
  lemma ReadPiece(text: Text, i: nat, p: Piece, out: Text)
    requires WellFormedPiece(p) && StandsAt(text, i, PieceText(p))
    ensures ReadFrom(text, i, out) == ReadFrom(text, i + |PieceText(p)|, out + ScannedPiece(p))
  {
    var t := PieceText(p);
    StandsAtUnit(text, i, t, 0);
    if p.Hex? {
      ReadHexPiece(text, i, p, out);
    } else if p.Escape? {
      StandsAtUnit(text, i, t, 1);
    }
  }

  lemma ReadHexPiece(text: Text, i: nat, p: Piece, out: Text)
    requires p.Hex? && WellFormedPiece(p) && StandsAt(text, i, PieceText(p))
    ensures ReadFrom(text, i, out) == ReadFrom(text, i + 6, out + ScannedPiece(p))
  {
    hide *;
    HexPieceUnits(text, i, p);
    HexPieceValue(p);
    ReadHexEscape(text, i, out);
  }

  lemma HexPieceValue(p: Piece)
    requires p.Hex? && WellFormedPiece(p)
    ensures FromHexEscape([p.d0, p.d1, p.d2, p.d3]) == ScannedPiece(p)
  {
    HexPrefixOfFour(p.d0, p.d1, p.d2, p.d3);
    var v := HexValue(p.d0, p.d1, p.d2, p.d3);
    hide *;
    FromHexEscapeOf([p.d0, p.d1, p.d2, p.d3], v);
    ScannedHex(p);
  }

  lemma FromHexEscapeOf(h: Text, v: Unit)
    requires ParseHex(h) == Some(v as int)
    ensures FromHexEscape(h) == [v]
  {
  }

  lemma ScannedHex(p: Piece)
    requires p.Hex?
    ensures ScannedPiece(p) == [HexValue(p.d0, p.d1, p.d2, p.d3)]
  {
  }

  lemma ReadHexEscape(text: Text, i: nat, out: Text)
    requires i + 1 < |text| && text[i] == BACKSLASH && text[i + 1] == LOWER_U
    ensures ReadFrom(text, i, out) == ReadFrom(text, i + 6, out + FromHexEscape(FourUnits(text, i + 2)))
  {
    hide FromHexEscape, FourUnits;
  }

  lemma HexPieceUnits(text: Text, i: nat, p: Piece)
    requires p.Hex? && StandsAt(text, i, PieceText(p))
    ensures i + 6 <= |text| && text[i] == BACKSLASH && text[i + 1] == LOWER_U
    ensures FourUnits(text, i + 2) == [p.d0, p.d1, p.d2, p.d3]
  {
    var t := PieceText(p);
    assert t[2] == p.d0 && t[3] == p.d1 && t[4] == p.d2 && t[5] == p.d3;
    assert text[i + 0] == t[0] && text[i + 1] == t[1] && text[i + 2] == t[2];
    assert text[i + 3] == t[3] && text[i + 4] == t[4] && text[i + 5] == t[5];
  }

  lemma {:induction false} ReadOver(text: Text, i: nat, s: Spelling, out: Text)
    requires WellFormedSpelling(s) && StandsAt(text, i, SpellingText(s) + [QUOTE])
    ensures ReadFrom(text, i, out) == Read(out + KeyValue(AsScanned, s), i + |SpellingText(s)| + 1)
    decreases |s|
  {
    hide StandsAt, WellFormedSpelling, ReadFrom, PieceText;
    if s == [] {
      ReadClose(text, i, out);
      assert out + KeyValue(AsScanned, s) == out;
    } else {
      SpellingSplit(text, i, s);
      ReadPiece(text, i, s[0], out);
      KeyValueSplit(s, out);
      hide *;
      ReadOver(text, i + |PieceText(s[0])|, s[1..], out + ScannedPiece(s[0]));
    }
  }

  lemma KeyValueSplit(s: Spelling, out: Text)
    requires s != []
    ensures out + ScannedPiece(s[0]) + KeyValue(AsScanned, s[1..]) == out + KeyValue(AsScanned, s)
  {
    hide ScannedPiece;
  }

  lemma ReadClose(text: Text, i: nat, out: Text)
    requires StandsAt(text, i, [] + [QUOTE])
    ensures ReadFrom(text, i, out) == Read(out, i + 1)
  {
    StandsAtUnit(text, i, [] + [QUOTE], 0);
  }

  lemma ReadStringOver(text: Text, i: nat, s: Spelling)
    requires WellFormedSpelling(s) && StandsAt(text, i, StringText(s))
    ensures ReadString(text, i) == Read(KeyValue(AsScanned, s), i + |StringText(s)|)
  {
    assert StringText(s) == [QUOTE] + (SpellingText(s) + [QUOTE]);
    StandsAtConcat(text, i, [QUOTE], SpellingText(s) + [QUOTE]);
    ReadOver(text, i + 1, s, []);
    assert [] + KeyValue(AsScanned, s) == KeyValue(AsScanned, s);
  }

  /** Recording a list of occurrences, first come first kept. */
  function NoteAll(text: Text, inherited: set<Text>, index: Index, occs: seq<Occurrence>): Index
    decreases |occs|
  {
    if occs == [] then index
    else NoteAll(text, inherited, Note(index, inherited, occs[0].path, PositionAt(text, occs[0].at)), occs[1..])
  }

  lemma {:induction false} NoteAllConcat(
    text: Text, inherited: set<Text>, index: Index, a: seq<Occurrence>, b: seq<Occurrence>)
    ensures NoteAll(text, inherited, index, a + b) ==
            NoteAll(text, inherited, NoteAll(text, inherited, index, a), b)
    decreases |a|
  {
    if a == [] {
      assert a + b == b;
    } else {
      assert (a + b)[1..] == a[1..] + b;
      NoteAllConcat(text, inherited, Note(index, inherited, a[0].path, PositionAt(text, a[0].at)), a[1..], b);
    }
  }

  // ---- The scanner inverts the printer --------------------------------------

  lemma {:induction false} ScanValueOver(
    text: Text, inherited: set<Text>, i: nat, index: Index, prefix: Text, v: Value)
    requires WellFormed(v) && StandsAt(text, i, ValueText(v))
    requires IsBoundary(PeekAt(text, i + |ValueText(v)|))
    ensures ScanValue(text, inherited, i, index, prefix) ==
            Done(i + |ValueText(v)|, NoteAll(text, inherited, index, ValueKeys(AsScanned, v, prefix, i)))
    decreases v, 0
  {
    ValueTextStart(v);
    StandsAtUnit(text, i, ValueText(v), 0);
    assert BlanksEnd(text, i) == i;
    match v
    case Scalar(token) => TokenEndOver(text, i, token);
    case Str(body) => ReadStringOver(text, i, body);
    case Arr(elems) =>
      StandsAtConcat(text, i, [OPEN_BRACKET], ElemsText(elems, true));
      ScanElemsOver(text, inherited, i + 1, index, prefix, elems, true);
    case Obj(members) =>
      StandsAtConcat(text, i, [OPEN_BRACE], MembersText(members, true));
      ScanMembersOver(text, inherited, i + 1, index, prefix, members, true);
  }

  /** Blanks, a value, blanks and whatever follows: where each part stands. */
  lemma ValueLayout(text: Text, i: nat, before: Text, value: Text, after: Text, rest: Text)
    requires StandsAt(text, i, before + (value + (after + rest)))
    requires Blank(before) && Blank(after) && value != [] && !IsBlank(value[0])
    requires after + rest != [] && IsBoundary((after + rest)[0])
    ensures var start := i + |before|;
            var end := start + |value|;
            && StandsAt(text, start, value) && StandsAt(text, end + |after|, rest)
            && BlanksEnd(text, i) == start && BlanksEnd(text, start) == start
            && BlanksEnd(text, end) == BlanksEnd(text, end + |after|)
            && IsBoundary(PeekAt(text, end))
            && PeekAt(text, start) == value[0]
  {
    var start := i + |before|;
    var end := start + |value|;
    StandsAtConcat(text, i, before, value + (after + rest));
    StandsAtConcat(text, start, value, after + rest);
    StandsAtConcat(text, end, after, rest);
    StandsAtUnit(text, end, after + rest, 0);
    StandsAtUnit(text, start, value, 0);
    BlanksEndOver(text, i, before);
    BlanksEndOver(text, end, after);
  }

  lemma ElemKeysUnfold(es: Elems, prefix: Text, i: nat, reader: Reader)
    requires es.Elem?
    ensures var start := i + |es.before|;
            ElemsKeys(reader, es, true, prefix, i) ==
            ValueKeys(reader, es.value, prefix, start) + ElemsKeys(reader, es.rest, false, prefix, i + ElemSize(es))
    ensures ElemsKeys(reader, es, false, prefix, i) == ElemsKeys(reader, es, true, prefix, i + 1)
  {
  }

  lemma ElemComma(text: Text, i: nat, es: Elems)
    requires es.Elem? && StandsAt(text, i, ElemsText(es, false))
    ensures PeekAt(text, i) == COMMA && BlanksEnd(text, i) == i && StandsAt(text, i + 1, ElemsText(es, true))
    ensures |ElemsText(es, false)| == 1 + |ElemsText(es, true)|
  {
    assert ElemsText(es, false) == [COMMA] + ElemsText(es, true);
    StandsAtConcat(text, i, [COMMA], ElemsText(es, true));
    StandsAtUnit(text, i, [COMMA], 0);
  }

  lemma ElemsPad(text: Text, i: nat, es: Elems, first: bool)
    requires es.ElemsEnd? && WellFormedElems(es) && StandsAt(text, i, ElemsText(es, first))
    ensures BlanksEnd(text, i) == i + |es.pad| && PeekAt(text, i + |es.pad|) == CLOSE_BRACKET
  {
    StandsAtConcat(text, i, es.pad, [CLOSE_BRACKET]);
    StandsAtUnit(text, i + |es.pad|, [CLOSE_BRACKET], 0);
    BlanksEndOver(text, i, es.pad);
  }

  /** One round of `scanArray` on a value. */
  lemma ElemsRound(text: Text, inherited: set<Text>, i: nat, index: Index,
                   prefix: Text, j: nat, next: nat, noted: Index)
    requires BlanksEnd(text, i) == j && PeekAt(text, j) != END
    requires !EndsToken(PeekAt(text, j))
    requires ScanValue(text, inherited, j, index, prefix) == Done(next, noted)
    ensures ScanElems(text, inherited, i, index, prefix) == ScanElems(text, inherited, next, noted, prefix)
  {
  }

  lemma ElemsSkip(text: Text, inherited: set<Text>, i: nat, j: nat, index: Index, prefix: Text)
    requires BlanksEnd(text, i) == BlanksEnd(text, j)
    ensures ScanElems(text, inherited, i, index, prefix) == ScanElems(text, inherited, j, index, prefix)
  {
  }

  /** `scanArray` up to its next separator. */
  lemma {:induction false} ScanElemOver(
    text: Text, inherited: set<Text>, i: nat, index: Index, prefix: Text, es: Elems)
    requires es.Elem? && WellFormedElems(es) && StandsAt(text, i, ElemsText(es, true))
    ensures StandsAt(text, i + ElemSize(es), ElemsText(es.rest, false))
    ensures ScanElems(text, inherited, i, index, prefix) ==
            ScanElems(text, inherited, i + ElemSize(es),
                      NoteAll(text, inherited, index, ValueKeys(AsScanned, es.value, prefix, i + |es.before|)), prefix)
    decreases es, 0
  {
    hide ValueKeys, ElemsKeys, ValueText, ElemsText, WellFormed, WellFormedElems, PositionAt,
         ScanElems, ScanValue, NoteAll, BlanksEnd, StandsAt;
    var start := i + |es.before|;
    var end := start + |ValueText(es.value)|;
    var noted := NoteAll(text, inherited, index, ValueKeys(AsScanned, es.value, prefix, start));
    ElemUnfold(es);
    ValueLayout(text, i, es.before, ValueText(es.value), es.after, ElemsText(es.rest, false));
    ScanValueOver(text, inherited, start, index, prefix, es.value);
    ElemsRound(text, inherited, i, index, prefix, start, end, noted);
    ElemsSkip(text, inherited, end, end + |es.after|, noted, prefix);
  }

  lemma {:induction false} ScanElemsOver(
    text: Text, inherited: set<Text>, i: nat, index: Index, prefix: Text, es: Elems, first: bool)
    requires WellFormedElems(es) && StandsAt(text, i, ElemsText(es, first))
    ensures ScanElems(text, inherited, i, index, prefix) ==
            Done(i + |ElemsText(es, first)|,
                 NoteAll(text, inherited, index, ElemsKeys(AsScanned, es, first, prefix, i)))
    decreases es, if first then 1 else 2
  {
    hide *;
    if es.ElemsEnd? {
      ElemsEndOver(text, inherited, i, index, prefix, es, first);
    } else if !first {
      ElemsCommaOver(text, inherited, i, index, prefix, es);
      ScanElemsOver(text, inherited, i + 1, index, prefix, es, true);
    } else {
      var start := i + |es.before|;
      var keys := ValueKeys(AsScanned, es.value, prefix, start);
      ElemUnfold(es);
      ElemKeysUnfold(es, prefix, i, AsScanned);
      ScanElemOver(text, inherited, i, index, prefix, es);
      NoteAllConcat(text, inherited, index, keys,
                    ElemsKeys(AsScanned, es.rest, false, prefix, i + ElemSize(es)));
      ScanElemsOver(text, inherited, i + ElemSize(es), NoteAll(text, inherited, index, keys), prefix, es.rest, false);
    }
  }

  lemma ElemsEndOver(text: Text, inherited: set<Text>, i: nat, index: Index, prefix: Text, es: Elems, first: bool)
    requires es.ElemsEnd? && WellFormedElems(es) && StandsAt(text, i, ElemsText(es, first))
    ensures ScanElems(text, inherited, i, index, prefix) ==
            Done(i + |ElemsText(es, first)|,
                 NoteAll(text, inherited, index, ElemsKeys(AsScanned, es, first, prefix, i)))
  {
    ElemsPad(text, i, es, first);
  }

  lemma ElemsCommaOver(text: Text, inherited: set<Text>, i: nat, index: Index, prefix: Text, es: Elems)
    requires es.Elem? && StandsAt(text, i, ElemsText(es, false))
    ensures StandsAt(text, i + 1, ElemsText(es, true))
    ensures |ElemsText(es, false)| == 1 + |ElemsText(es, true)|
    ensures ScanElems(text, inherited, i, index, prefix) == ScanElems(text, inherited, i + 1, index, prefix)
    ensures ElemsKeys(AsScanned, es, false, prefix, i) == ElemsKeys(AsScanned, es, true, prefix, i + 1)
  {
    hide *;
    ElemComma(text, i, es);
    ElemKeysUnfold(es, prefix, i, AsScanned);
    CommaRound(text, inherited, i, index, prefix);
  }

  /** A quoted key, blanks, a colon and the rest: where each part stands. */
  lemma KeyLayout(text: Text, i: nat, before: Text, key: Text, beforeColon: Text, rest: Text)
    requires StandsAt(text, i, before + (key + (beforeColon + ([COLON] + rest))))
    requires Blank(before) && Blank(beforeColon) && key != [] && key[0] == QUOTE
    ensures var quote := i + |before|;
            var close := quote + |key|;
            var colon := close + |beforeColon|;
            && StandsAt(text, quote, key) && StandsAt(text, colon + 1, rest)
            && BlanksEnd(text, i) == quote && PeekAt(text, quote) == QUOTE
            && BlanksEnd(text, close) == colon && PeekAt(text, colon) == COLON
  {
    var quote := i + |before|;
    var close := quote + |key|;
    var colon := close + |beforeColon|;
    StandsAtConcat(text, i, before, key + (beforeColon + ([COLON] + rest)));
    StandsAtConcat(text, quote, key, beforeColon + ([COLON] + rest));
    StandsAtConcat(text, close, beforeColon, [COLON] + rest);
    StandsAtConcat(text, colon, [COLON], rest);
    StandsAtUnit(text, quote, key, 0);
    StandsAtUnit(text, colon, [COLON], 0);
    BlanksEndOver(text, i, before);
    BlanksEndOver(text, close, beforeColon);
  }

  lemma MemberKeysUnfold(ms: Members, prefix: Text, i: nat, reader: Reader)
    requires ms.Member?
    ensures var quote := i + |ms.before|;
            var start := quote + |StringText(ms.key)| + |ms.beforeColon| + 1 + |ms.afterColon|;
            var path := PathOf(prefix, KeyValue(reader, ms.key));
            MembersKeys(reader, ms, true, prefix, i) ==
            [Occurrence(path, quote)] + (ValueKeys(reader, ms.value, path, start) +
            MembersKeys(reader, ms.rest, false, prefix, start + |ValueText(ms.value)| + |ms.after|))
    ensures MembersKeys(reader, ms, false, prefix, i) == MembersKeys(reader, ms, true, prefix, i + 1)
  {
    hide ValueKeys, ValueText, StringText, PathOf, KeyValue;
  }

  lemma MemberComma(text: Text, i: nat, ms: Members)
    requires ms.Member? && StandsAt(text, i, MembersText(ms, false))
    ensures PeekAt(text, i) == COMMA && BlanksEnd(text, i) == i && StandsAt(text, i + 1, MembersText(ms, true))
    ensures |MembersText(ms, false)| == 1 + |MembersText(ms, true)|
  {
    assert MembersText(ms, false) == [COMMA] + MembersText(ms, true);
    StandsAtConcat(text, i, [COMMA], MembersText(ms, true));
    StandsAtUnit(text, i, [COMMA], 0);
  }

  lemma MembersPad(text: Text, i: nat, ms: Members, first: bool)
    requires ms.MembersEnd? && WellFormedMembers(ms) && StandsAt(text, i, MembersText(ms, first))
    ensures BlanksEnd(text, i) == i + |ms.pad| && PeekAt(text, i + |ms.pad|) == CLOSE_BRACE
  {
    StandsAtConcat(text, i, ms.pad, [CLOSE_BRACE]);
    StandsAtUnit(text, i + |ms.pad|, [CLOSE_BRACE], 0);
    BlanksEndOver(text, i, ms.pad);
  }

  /** One round of `scanObject` on a key, its colon and its value. */
  lemma MembersRound(text: Text, inherited: set<Text>, i: nat, index: Index, prefix: Text,
                     quote: nat, key: Read, colon: nat, path: Text, start: nat, next: nat, noted: Index)
    requires BlanksEnd(text, i) == quote && PeekAt(text, quote) == QUOTE
    requires ReadString(text, quote) == key && path == PathOf(prefix, key.value)
    requires BlanksEnd(text, key.next) == colon && PeekAt(text, colon) == COLON
    requires BlanksEnd(text, colon + 1) == BlanksEnd(text, start)
    requires ScanValue(text, inherited, start, Note(index, inherited, path, PositionAt(text, quote)), path) ==
             Done(next, noted)
    ensures ScanMembers(text, inherited, i, index, prefix) == ScanMembers(text, inherited, next, noted, prefix)
  {
    var first := Note(index, inherited, path, PositionAt(text, quote));
    assert ScanValue(text, inherited, colon + 1, first, path) == ScanValue(text, inherited, start, first, path);
  }

  lemma MembersSkip(text: Text, inherited: set<Text>, i: nat, j: nat, index: Index, prefix: Text)
    requires BlanksEnd(text, i) == BlanksEnd(text, j)
    ensures ScanMembers(text, inherited, i, index, prefix) == ScanMembers(text, inherited, j, index, prefix)
  {
  }

  /** The index once a member's key and everything inside its value are recorded. */
  function NoteMember(text: Text, inherited: set<Text>, i: nat, index: Index, prefix: Text, ms: Members): Index
    requires ms.Member?
  {
    var path := PathOf(prefix, KeyValue(AsScanned, ms.key));
    NoteAll(text, inherited, Note(index, inherited, path, PositionAt(text, i + |ms.before|)),
            ValueKeys(AsScanned, ms.value, path, i + ColonOffset(ms) + 1 + |ms.afterColon|))
  }

  /** `scanObject` up to its next separator. */
  lemma {:induction false} ScanMemberOver(
    text: Text, inherited: set<Text>, i: nat, index: Index, prefix: Text, ms: Members)
    requires ms.Member? && WellFormedMembers(ms) && StandsAt(text, i, MembersText(ms, true))
    ensures StandsAt(text, i + MemberSize(ms), MembersText(ms.rest, false))
    ensures ScanMembers(text, inherited, i, index, prefix) ==
            ScanMembers(text, inherited, i + MemberSize(ms), NoteMember(text, inherited, i, index, prefix, ms), prefix)
    decreases ms, 0
  {
    hide ValueKeys, MembersKeys, KeyValue, ValueText, MembersText, WellFormed, WellFormedMembers, PathOf,
         PositionAt, ScanMembers, ScanValue, NoteAll, BlanksEnd, StandsAt;
    var quote := i + |ms.before|;
    var colon := i + ColonOffset(ms);
    var start := colon + 1 + |ms.afterColon|;
    var end := start + |ValueText(ms.value)|;
    var path := PathOf(prefix, KeyValue(AsScanned, ms.key));
    var begun := Note(index, inherited, path, PositionAt(text, quote));
    var noted := NoteAll(text, inherited, begun, ValueKeys(AsScanned, ms.value, path, start));
    MemberUnfold(ms);
    KeyLayout(text, i, ms.before, StringText(ms.key), ms.beforeColon, FromValue(ms));
    ValueLayout(text, colon + 1, ms.afterColon, ValueText(ms.value), ms.after, MembersText(ms.rest, false));
    ReadStringOver(text, quote, ms.key);
    ScanValueOver(text, inherited, start, begun, path, ms.value);
    MembersRound(text, inherited, i, index, prefix, quote, ReadString(text, quote), colon, path, start, end, noted);
    MembersSkip(text, inherited, end, end + |ms.after|, noted, prefix);
  }

  lemma {:induction false} ScanMembersOver(
    text: Text, inherited: set<Text>, i: nat, index: Index, prefix: Text, ms: Members, first: bool)
    requires WellFormedMembers(ms) && StandsAt(text, i, MembersText(ms, first))
    ensures ScanMembers(text, inherited, i, index, prefix) ==
            Done(i + |MembersText(ms, first)|,
                 NoteAll(text, inherited, index, MembersKeys(AsScanned, ms, first, prefix, i)))
    decreases ms, if first then 1 else 2
  {
    hide *;
    if ms.MembersEnd? {
      MembersEndOver(text, inherited, i, index, prefix, ms, first);
    } else if !first {
      MembersCommaOver(text, inherited, i, index, prefix, ms);
      ScanMembersOver(text, inherited, i + 1, index, prefix, ms, true);
    } else {
      MemberUnfold(ms);
      ScanMemberOver(text, inherited, i, index, prefix, ms);
      NoteMemberThenRest(text, inherited, i, index, prefix, ms);
      ScanMembersOver(text, inherited, i + MemberSize(ms), NoteMember(text, inherited, i, index, prefix, ms), prefix,
                      ms.rest, false);
    }
  }

  lemma MembersEndOver(text: Text, inherited: set<Text>, i: nat, index: Index, prefix: Text, ms: Members, first: bool)
    requires ms.MembersEnd? && WellFormedMembers(ms) && StandsAt(text, i, MembersText(ms, first))
    ensures ScanMembers(text, inherited, i, index, prefix) ==
            Done(i + |MembersText(ms, first)|,
                 NoteAll(text, inherited, index, MembersKeys(AsScanned, ms, first, prefix, i)))
  {
    MembersPad(text, i, ms, first);
  }

  lemma MembersCommaOver(text: Text, inherited: set<Text>, i: nat, index: Index, prefix: Text, ms: Members)
    requires ms.Member? && StandsAt(text, i, MembersText(ms, false))
    ensures StandsAt(text, i + 1, MembersText(ms, true))
    ensures |MembersText(ms, false)| == 1 + |MembersText(ms, true)|
    ensures ScanMembers(text, inherited, i, index, prefix) == ScanMembers(text, inherited, i + 1, index, prefix)
    ensures MembersKeys(AsScanned, ms, false, prefix, i) == MembersKeys(AsScanned, ms, true, prefix, i + 1)
  {
    hide *;
    MemberComma(text, i, ms);
    MemberKeysUnfold(ms, prefix, i, AsScanned);
    CommaRound(text, inherited, i, index, prefix);
  }

  lemma CommaRound(text: Text, inherited: set<Text>, i: nat, index: Index, prefix: Text)
    requires BlanksEnd(text, i) == i && PeekAt(text, i) == COMMA
    ensures ScanMembers(text, inherited, i, index, prefix) == ScanMembers(text, inherited, i + 1, index, prefix)
    ensures ScanElems(text, inherited, i, index, prefix) == ScanElems(text, inherited, i + 1, index, prefix)
  {
  }

  lemma NoteMemberThenRest(text: Text, inherited: set<Text>, i: nat, index: Index, prefix: Text, ms: Members)
    requires ms.Member?
    ensures NoteAll(text, inherited, index, MembersKeys(AsScanned, ms, true, prefix, i)) ==
            NoteAll(text, inherited, NoteMember(text, inherited, i, index, prefix, ms),
                    MembersKeys(AsScanned, ms.rest, false, prefix, i + MemberSize(ms)))
  {
    hide ValueKeys, MembersKeys, KeyValue, ValueText, MembersText, PathOf, PositionAt;
    var path := PathOf(prefix, KeyValue(AsScanned, ms.key));
    var quote := i + |ms.before|;
    var keys := ValueKeys(AsScanned, ms.value, path, i + ColonOffset(ms) + 1 + |ms.afterColon|);
    var more := MembersKeys(AsScanned, ms.rest, false, prefix, i + MemberSize(ms));
    MemberKeysUnfold(ms, prefix, i, AsScanned);
    assert ([Occurrence(path, quote)] + (keys + more))[1..] == keys + more;
    NoteAllConcat(text, inherited, Note(index, inherited, path, PositionAt(text, quote)), keys, more);
  }
}

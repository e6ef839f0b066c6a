/**
 What `rawDuplicateKeys` reports on every well-formed JSON text, and when an empty
 report means that a last-wins parse keeps every member.
 */
module DuplicateKeysTheorems {
  import opened Texts
  import opened JsonSyntax
  import opened DuplicateKeys

  // ---- The recursive specification ------------------------------------------

  /** The pointers of members whose raw spelling occurred earlier in the same object. */
  function ValueDups(v: Value, pointer: Text): seq<Text> {
    match v
    case Scalar(_) => []
    case Str(_) => []
    case Arr(elems) => ElemsDups(elems, pointer)
    case Obj(members) => MembersDups(members, pointer, [])
  }

  function ElemsDups(es: Elems, pointer: Text): seq<Text> {
    if es.ElemsEnd? then [] else ValueDups(es.value, pointer) + ElemsDups(es.rest, pointer)
  }

  /** `earlier` lists the raw spellings of the members before `ms`. */
  function MembersDups(ms: Members, pointer: Text, earlier: seq<Text>): seq<Text> {
    if ms.MembersEnd? then []
    else
      var key := SpellingText(ms.key);
      (if key in earlier then [Pointer(pointer, key)] else []) +
      (ValueDups(ms.value, Pointer(pointer, key)) + MembersDups(ms.rest, pointer, earlier + [key]))
  }

  // ---- The scan, part by part -----------------------------------------------

  predicate Quiet(u: int) {
    u != QUOTE && u != OPEN_BRACE && u != OPEN_BRACKET && u != CLOSE_BRACE && u != CLOSE_BRACKET && u != COMMA
  }

  lemma {:induction false} RunQuiet(text: Text, s: State, w: Text)
    requires StandsAt(text, s.i, w) && forall k :: 0 <= k < |w| ==> Quiet(w[k])
    ensures Run(text, s) == Run(text, s.(i := s.i + |w|))
    decreases |w|
  {
    if w != [] {
      assert w == [w[0]] + w[1..];
      StandsAtUnit(text, s.i, w, 0);
      StandsAtConcat(text, s.i, [w[0]], w[1..]);
      RunQuiet(text, s.(i := s.i + 1), w[1..]);
    }
  }

  lemma {:induction false} RawOver(text: Text, i: nat, s: Spelling, out: Text)
    requires WellFormedSpelling(s) && StandsAt(text, i, SpellingText(s) + [QUOTE])
    ensures RawFrom(text, i, out) == Read(out + SpellingText(s), i + |SpellingText(s)| + 1)
    decreases |s|
  {
    hide StandsAt, WellFormedSpelling, RawFrom, PieceText;
    if s == [] {
      RawClose(text, i, out);
      assert out + SpellingText(s) == out;
    } else {
      var t := PieceText(s[0]);
      SpellingSplit(text, i, s);
      RawPiece(text, i, s[0], out);
      assert out + t + SpellingText(s[1..]) == out + SpellingText(s);
      hide *;
      RawOver(text, i + |t|, s[1..], out + t);
    }
  }

  lemma RawClose(text: Text, i: nat, out: Text)
    requires StandsAt(text, i, [] + [QUOTE])
    ensures RawFrom(text, i, out) == Read(out, i + 1)
  {
    StandsAtUnit(text, i, [] + [QUOTE], 0);
  }

  lemma RawPiece(text: Text, i: nat, p: Piece, out: Text)
    requires WellFormedPiece(p) && StandsAt(text, i, PieceText(p))
    ensures RawFrom(text, i, out) == RawFrom(text, i + |PieceText(p)|, out + PieceText(p))
  {
    var t := PieceText(p);
    StandsAtUnit(text, i, t, 0);
    if p.Hex? {
      RawHexDigits(text, i, p, out);
    } else if p.Escape? {
      StandsAtUnit(text, i, t, 1);
    }
  }

  lemma RawHexDigits(text: Text, i: nat, p: Piece, out: Text)
    requires p.Hex? && WellFormedPiece(p) && StandsAt(text, i, PieceText(p))
    ensures RawFrom(text, i, out) == RawFrom(text, i + 6, out + PieceText(p))
  {
    var t := PieceText(p);
    StandsAtUnit(text, i, t, 0);
    StandsAtUnit(text, i, t, 1);
    StandsAtUnit(text, i, t, 2);
    StandsAtUnit(text, i, t, 3);
    StandsAtUnit(text, i, t, 4);
    StandsAtUnit(text, i, t, 5);
    var o2 := out + [BACKSLASH, LOWER_U];
    var o3, o4, o5 := o2 + [p.d0], o2 + [p.d0] + [p.d1], o2 + [p.d0] + [p.d1] + [p.d2];
    assert RawFrom(text, i, out) == RawFrom(text, i + 2, o2);
    assert RawFrom(text, i + 2, o2) == RawFrom(text, i + 3, o3);
    assert RawFrom(text, i + 3, o3) == RawFrom(text, i + 4, o4);
    assert RawFrom(text, i + 4, o4) == RawFrom(text, i + 5, o5);
    assert RawFrom(text, i + 5, o5) == RawFrom(text, i + 6, o5 + [p.d3]);
    assert o5 + [p.d3] == out + t;
  }

  lemma RawStringOver(text: Text, i: nat, s: Spelling)
    requires WellFormedSpelling(s) && StandsAt(text, i, StringText(s))
    ensures RawString(text, i) == Read(SpellingText(s), i + |StringText(s)|)
    ensures PeekAt(text, i) == QUOTE
  {
    assert StringText(s) == [QUOTE] + (SpellingText(s) + [QUOTE]);
    StandsAtConcat(text, i, [QUOTE], SpellingText(s) + [QUOTE]);
    StandsAtUnit(text, i, StringText(s), 0);
    RawOver(text, i + 1, s, []);
    assert [] + SpellingText(s) == SpellingText(s);
  }

  lemma {:induction false} SpacesEndOver(text: Text, i: nat, w: Text, u: int)
    requires StandsAt(text, i, w) && Blank(w) && PeekAt(text, i + |w|) == u && !IsJsSpace(u)
    ensures PeekAt(text, SpacesEnd(text, i)) == u
    decreases |w|
  {
    if w != [] {
      assert w == [w[0]] + w[1..];
      StandsAtUnit(text, i, w, 0);
      StandsAtConcat(text, i, [w[0]], w[1..]);
      SpacesEndOver(text, i + 1, w[1..], u);
    }
  }

  /** No colon follows: true of every value of a well-formed text. */
  ghost predicate NoColonAfter(text: Text, i: nat) {
    PeekAt(text, SpacesEnd(text, i)) != COLON
  }

  /** The state once a value has been scanned. */
  function AfterValue(s: State, v: Value): State {
    State(s.i + |ValueText(v)|, s.stack, if v.Arr? || v.Obj? then None else s.pending,
          s.dups + ValueDups(v, Here(s)))
  }

  lemma {:induction false} RunValue(text: Text, s: State, v: Value)
    requires WellFormed(v) && StandsAt(text, s.i, ValueText(v))
    requires NoColonAfter(text, s.i + |ValueText(v)|)
    ensures Run(text, s) == Run(text, AfterValue(s, v))
    decreases v, 0
  {
    hide StandsAt, Run, ElemsText, MembersText, SpellingText, ElemsDups, MembersDups, NoColonAfter;
    match v
    case Scalar(token) =>
      RunQuiet(text, s, token);
      assert s.dups + [] == s.dups;
    case Str(body) =>
      RunString(text, s, body);
      assert s.dups + [] == s.dups;
    case Arr(elems) => RunArray(text, s, elems);
    case Obj(members) => RunObject(text, s, members);
  }

  lemma RunString(text: Text, s: State, body: Spelling)
    requires WellFormedSpelling(body) && StandsAt(text, s.i, StringText(body))
    requires NoColonAfter(text, s.i + |StringText(body)|)
    ensures Run(text, s) == Run(text, s.(i := s.i + |StringText(body)|))
  {
    RawStringOver(text, s.i, body);
  }

  lemma {:induction false} RunArray(text: Text, s: State, es: Elems)
    requires WellFormedElems(es) && StandsAt(text, s.i, ValueText(Arr(es)))
    ensures Run(text, s) == Run(text, AfterValue(s, Arr(es)))
    decreases es, 3
  {
    StandsAtConcat(text, s.i, [OPEN_BRACKET], ElemsText(es, true));
    StandsAtUnit(text, s.i, [OPEN_BRACKET], 0);
    var inside := Open(s, None);
    RunElems(text, inside, es, true);
    assert inside.stack[..|inside.stack| - 1] == s.stack;
  }

  lemma {:induction false} RunObject(text: Text, s: State, ms: Members)
    requires WellFormedMembers(ms) && StandsAt(text, s.i, ValueText(Obj(ms)))
    ensures Run(text, s) == Run(text, AfterValue(s, Obj(ms)))
    decreases ms, 3
  {
    StandsAtConcat(text, s.i, [OPEN_BRACE], MembersText(ms, true));
    StandsAtUnit(text, s.i, [OPEN_BRACE], 0);
    var inside := Open(s, Some({}));
    var none: seq<Text> := [];
    assert (set k | k in none) == {};
    RunMembers(text, inside, ms, true, none);
    assert inside.stack[..|inside.stack| - 1] == s.stack;
  }

  /** The state once an open array or object has been scanned to its end. */
  function AfterRest(s: State, size: nat, dups: seq<Text>): State
    requires s.stack != []
  {
    State(s.i + size, s.stack[..|s.stack| - 1], None, s.dups + dups)
  }

  lemma {:induction false} SpacesEndSkip(text: Text, i: nat, w: Text)
    requires StandsAt(text, i, w) && Blank(w)
    ensures SpacesEnd(text, i) == SpacesEnd(text, i + |w|)
    decreases |w|
  {
    if w != [] {
      assert w == [w[0]] + w[1..];
      StandsAtUnit(text, i, w, 0);
      StandsAtConcat(text, i, [w[0]], w[1..]);
      SpacesEndSkip(text, i + 1, w[1..]);
    }
  }

  lemma NoColonAfterElem(text: Text, i: nat, after: Text, rest: Elems)
    requires Blank(after) && WellFormedElems(rest) && StandsAt(text, i, after + ElemsText(rest, false))
    ensures NoColonAfter(text, i)
    ensures StandsAt(text, i, after) && StandsAt(text, i + |after|, ElemsText(rest, false))
  {
    StandsAtConcat(text, i, after, ElemsText(rest, false));
    var j := i + |after|;
    SpacesEndSkip(text, i, after);
    if rest.ElemsEnd? {
      StandsAtConcat(text, j, rest.pad, [CLOSE_BRACKET]);
      StandsAtUnit(text, j + |rest.pad|, [CLOSE_BRACKET], 0);
      SpacesEndOver(text, j, rest.pad, CLOSE_BRACKET);
    } else {
      StandsAtUnit(text, j, ElemsText(rest, false), 0);
    }
  }

  lemma NoColonAfterMember(text: Text, i: nat, after: Text, rest: Members)
    requires Blank(after) && WellFormedMembers(rest) && StandsAt(text, i, after + MembersText(rest, false))
    ensures NoColonAfter(text, i)
    ensures StandsAt(text, i, after) && StandsAt(text, i + |after|, MembersText(rest, false))
  {
    StandsAtConcat(text, i, after, MembersText(rest, false));
    var j := i + |after|;
    SpacesEndSkip(text, i, after);
    if rest.MembersEnd? {
      StandsAtConcat(text, j, rest.pad, [CLOSE_BRACE]);
      StandsAtUnit(text, j + |rest.pad|, [CLOSE_BRACE], 0);
      SpacesEndOver(text, j, rest.pad, CLOSE_BRACE);
    } else {
      StandsAtUnit(text, j, MembersText(rest, false), 0);
    }
  }

  /** A closing bracket or brace after blanks. */
  lemma RunClose(text: Text, s: State, pad: Text, close: Unit)
    requires s.stack != [] && Blank(pad) && (close == CLOSE_BRACKET || close == CLOSE_BRACE)
    requires StandsAt(text, s.i, pad + [close])
    ensures Run(text, s) == Run(text, AfterRest(s, |pad| + 1, []))
  {
    StandsAtConcat(text, s.i, pad, [close]);
    StandsAtUnit(text, s.i + |pad|, [close], 0);
    RunQuiet(text, s, pad);
    assert s.dups + [] == s.dups;
  }

  lemma RunComma(text: Text, s: State, rest: Text)
    requires StandsAt(text, s.i, [COMMA] + rest)
    ensures Run(text, s) == Run(text, s.(i := s.i + 1, pending := None)) && StandsAt(text, s.i + 1, rest)
  {
    StandsAtUnit(text, s.i, [COMMA] + rest, 0);
    StandsAtConcat(text, s.i, [COMMA], rest);
  }

  /** From the start of an element to the separator after it. */
  lemma {:induction false} RunElem(text: Text, s: State, es: Elems)
    requires es.Elem? && WellFormedElems(es) && StandsAt(text, s.i, ElemsText(es, true))
    requires s.pending.None?
    ensures StandsAt(text, s.i + ElemSize(es), ElemsText(es.rest, false))
    ensures Run(text, s) ==
            Run(text, s.(i := s.i + ElemSize(es), dups := s.dups + ValueDups(es.value, Base(s))))
    decreases es, 0
  {
    hide StandsAt, ValueText, ElemsText, WellFormed, WellFormedElems, Run, ValueDups, ElemsDups;
    var tail := es.after + ElemsText(es.rest, false);
    var start := s.(i := s.i + |es.before|);
    ElemUnfold(es);
    StandsAtConcat(text, s.i, es.before, ValueText(es.value) + tail);
    StandsAtConcat(text, start.i, ValueText(es.value), tail);
    NoColonAfterElem(text, start.i + |ValueText(es.value)|, es.after, es.rest);
    RunQuiet(text, s, es.before);
    RunValue(text, start, es.value);
    RunQuiet(text, AfterValue(start, es.value), es.after);
  }

  lemma {:induction false} RunElems(text: Text, s: State, es: Elems, first: bool)
    requires WellFormedElems(es) && StandsAt(text, s.i, ElemsText(es, first))
    requires s.stack != [] && (first ==> s.pending.None?)
    ensures Run(text, s) == Run(text, AfterRest(s, |ElemsText(es, first)|, ElemsDups(es, Base(s))))
    decreases es, if first then 1 else 2
  {
    hide StandsAt, ValueText, WellFormed, Run, ValueDups;
    if es.ElemsEnd? {
      RunClose(text, s, es.pad, CLOSE_BRACKET);
    } else {
      ElemUnfold(es);
      if !first {
        RunComma(text, s, ElemsText(es, true));
        RunElems(text, s.(i := s.i + 1, pending := None), es, true);
      } else {
        var next := s.(i := s.i + ElemSize(es), dups := s.dups + ValueDups(es.value, Base(s)));
        RunElem(text, s, es);
        RunElems(text, next, es.rest, false);
        assert s.dups + ValueDups(es.value, Base(s)) + ElemsDups(es.rest, Base(s)) == s.dups + ElemsDups(es, Base(s));
      }
    }
  }

  /** The innermost frame is an object that has seen exactly the keys `earlier`. */
  ghost predicate InObject(s: State, earlier: seq<Text>) {
    s.stack != [] && s.stack[|s.stack| - 1].keys == Some(set k | k in earlier)
  }

  /** Where the parts of a member up to its colon stand. */
  lemma KeyParts(text: Text, i: nat, ms: Members)
    requires ms.Member? && WellFormedMembers(ms) && StandsAt(text, i, MembersText(ms, true))
    ensures var quote := i + |ms.before|;
            var close := quote + |StringText(ms.key)|;
            var colon := close + |ms.beforeColon|;
            && StandsAt(text, i, ms.before) && StandsAt(text, quote, StringText(ms.key))
            && StandsAt(text, close, ms.beforeColon) && StandsAt(text, colon, [COLON])
            && PeekAt(text, colon) == COLON && StandsAt(text, colon + 1, FromValue(ms))
  {
    hide ValueText, MembersText, WellFormedMembers, FromValue, StringText;
    var rest := FromValue(ms);
    var quote := i + |ms.before|;
    var close := quote + |StringText(ms.key)|;
    var colon := close + |ms.beforeColon|;
    MemberUnfold(ms);
    StandsAtConcat(text, i, ms.before, StringText(ms.key) + (ms.beforeColon + ([COLON] + rest)));
    StandsAtConcat(text, quote, StringText(ms.key), ms.beforeColon + ([COLON] + rest));
    StandsAtConcat(text, close, ms.beforeColon, [COLON] + rest);
    StandsAtConcat(text, colon, [COLON], rest);
    StandsAtUnit(text, colon, [COLON], 0);
  }

  /** From the start of a member to just past its colon. */
  lemma RunKey(text: Text, s: State, ms: Members, earlier: seq<Text>)
    requires ms.Member? && WellFormedMembers(ms) && StandsAt(text, s.i, MembersText(ms, true))
    requires InObject(s, earlier)
    ensures var t := EnterKey(s, SpellingText(ms.key)).(i := s.i + ColonOffset(ms) + 1);
            Run(text, s) == Run(text, t) && StandsAt(text, t.i, FromValue(ms))
  {
    hide ValueText, MembersText, FromValue, StringText, StandsAt, Run;
    var key := SpellingText(ms.key);
    var quote := s.(i := s.i + |ms.before|);
    var entered := EnterKey(quote, key).(i := quote.i + |StringText(ms.key)|);
    KeyParts(text, s.i, ms);
    RunQuiet(text, s, ms.before);
    RunKeyString(text, quote, ms.key, ms.beforeColon);
    RunQuiet(text, entered, ms.beforeColon);
    RunQuiet(text, entered.(i := entered.i + |ms.beforeColon|), [COLON]);
  }

  lemma AfterKey(s: State, key: Text, i: nat, earlier: seq<Text>)
    requires InObject(s, earlier)
    ensures var t := EnterKey(s, key).(i := i);
            && InObject(t, earlier + [key]) && Base(t) == Base(s) && Here(t) == Pointer(Base(s), key)
            && t.stack[..|t.stack| - 1] == s.stack[..|s.stack| - 1]
            && t.dups == s.dups + (if key in earlier then [Pointer(Base(s), key)] else [])
  {
    hide Pointer;
    assert (set k | k in earlier + [key]) == (set k | k in earlier) + {key};
    assert s.dups + [] == s.dups;
  }

  lemma RunKeyString(text: Text, s: State, key: Spelling, beforeColon: Text)
    requires WellFormedSpelling(key) && StandsAt(text, s.i, StringText(key)) && Blank(beforeColon)
    requires StandsAt(text, s.i + |StringText(key)|, beforeColon)
    requires PeekAt(text, s.i + |StringText(key)| + |beforeColon|) == COLON
    requires s.stack != [] && s.stack[|s.stack| - 1].keys.Some?
    ensures Run(text, s) == Run(text, EnterKey(s, SpellingText(key)).(i := s.i + |StringText(key)|))
  {
    RawStringOver(text, s.i, key);
    SpacesEndOver(text, s.i + |StringText(key)|, beforeColon, COLON);
  }

  /** From just past the colon to the separator after the member. */
  lemma {:induction false} RunMemberValue(text: Text, s: State, ms: Members)
    requires ms.Member? && WellFormedMembers(ms) && StandsAt(text, s.i, FromValue(ms))
    ensures var size := |ms.afterColon| + |ValueText(ms.value)| + |ms.after|;
            && StandsAt(text, s.i + size, MembersText(ms.rest, false))
            && Run(text, s) == Run(text, AfterValue(s, ms.value).(i := s.i + size))
    decreases ms, 0
  {
    hide StandsAt, ValueText, MembersText, WellFormed, WellFormedMembers, Run, ValueDups, StringText;
    var tail := ms.after + MembersText(ms.rest, false);
    var start := s.(i := s.i + |ms.afterColon|);
    MemberUnfold(ms);
    StandsAtConcat(text, s.i, ms.afterColon, ValueText(ms.value) + tail);
    StandsAtConcat(text, start.i, ValueText(ms.value), tail);
    NoColonAfterMember(text, start.i + |ValueText(ms.value)|, ms.after, ms.rest);
    RunQuiet(text, s, ms.afterColon);
    RunValue(text, start, ms.value);
    RunQuiet(text, AfterValue(start, ms.value), ms.after);
  }

  lemma {:induction false} RunMembers(text: Text, s: State, ms: Members, first: bool, earlier: seq<Text>)
    requires WellFormedMembers(ms) && StandsAt(text, s.i, MembersText(ms, first))
    requires InObject(s, earlier)
    ensures Run(text, s) == Run(text, AfterRest(s, |MembersText(ms, first)|, MembersDups(ms, Base(s), earlier)))
    decreases ms, if first then 1 else 2
  {
    hide StandsAt, ValueText, WellFormed, Run, ValueDups, StringText, SpellingText, FromValue, EnterKey;
    if ms.MembersEnd? {
      RunClose(text, s, ms.pad, CLOSE_BRACE);
    } else {
      MemberUnfold(ms);
      if !first {
        RunComma(text, s, MembersText(ms, true));
        RunMembers(text, s.(i := s.i + 1, pending := None), ms, true, earlier);
      } else {
        var key := SpellingText(ms.key);
        var entered := EnterKey(s, key).(i := s.i + ColonOffset(ms) + 1);
        var next := AfterValue(entered, ms.value).(i := s.i + MemberSize(ms));
        RunKey(text, s, ms, earlier);
        AfterKey(s, key, entered.i, earlier);
        RunMemberValue(text, entered, ms);
        RunMembers(text, next, ms.rest, false, earlier + [key]);
        JoinDups(s, ms, earlier, entered);
      }
    }
  }

  lemma JoinDups(s: State, ms: Members, earlier: seq<Text>, entered: State)
    requires ms.Member? && s.stack != []
    requires Here(entered) == Pointer(Base(s), SpellingText(ms.key))
    requires entered.dups == s.dups +
                             (if SpellingText(ms.key) in earlier then [Pointer(Base(s), SpellingText(ms.key))] else [])
    ensures entered.dups + ValueDups(ms.value, Here(entered)) +
            MembersDups(ms.rest, Base(s), earlier + [SpellingText(ms.key)]) ==
            s.dups + MembersDups(ms, Base(s), earlier)
  {
    hide ValueDups, SpellingText, Pointer;
  }

  lemma RunDone(text: Text, s: State)
    requires s.i >= |text|
    ensures Run(text, s) == s
  {
  }

  /** On every well-formed JSON text the scan collects exactly the specified pointers. */
  lemma ScanCollectsDuplicates(d: Document)
    requires WellFormedDocument(d)
    ensures Run(DocumentText(d), START).dups == ValueDups(d.value, [])
  {
    hide *;
    var text, start, v := DocumentText(d), |d.before|, d.value;
    var begin := State(start, [], None, []);
    var end := State(start + |ValueText(v)|, [], None, ValueDups(v, []));
    DocumentStands(d);
    BeginAndEnd(begin, end, v);
    RunQuiet(text, START, d.before);
    RunValue(text, begin, v);
    RunQuiet(text, end, d.after);
    RunDone(text, end.(i := end.i + |d.after|));
  }

  lemma DocumentStands(d: Document)
    requires WellFormedDocument(d)
    ensures var text, start := DocumentText(d), |d.before|;
            var end := start + |ValueText(d.value)|;
            && StandsAt(text, START.i, d.before) && StandsAt(text, start, ValueText(d.value))
            && StandsAt(text, end, d.after) && |text| == end + |d.after|
            && NoColonAfter(text, end) && WellFormed(d.value)
    ensures START == State(0, [], None, [])
    ensures forall k :: 0 <= k < |d.before| ==> Quiet(d.before[k])
    ensures forall k :: 0 <= k < |d.after| ==> Quiet(d.after[k])
  {
    hide ValueText, WellFormed, DocumentText, StandsAt;
    DocumentParts(d);
    SpacesEndOver(DocumentText(d), |d.before| + |ValueText(d.value)|, d.after, END);
  }

  lemma BeginAndEnd(begin: State, end: State, v: Value)
    requires begin == State(begin.i, [], None, [])
    requires end == State(begin.i + |ValueText(v)|, [], None, ValueDups(v, []))
    ensures AfterValue(begin, v) == end
  {
    hide ValueDups, ValueText;
    assert [] + ValueDups(v, []) == ValueDups(v, []);
  }

  /** The report: the same pointers, in ascending order. */
  lemma ReportIsSortedDuplicates(d: Document)
    requires WellFormedDocument(d)
    ensures var report := SortTexts(Run(DocumentText(d), START).dups);
            && multiset(report) == multiset(ValueDups(d.value, []))
            && Ascending(report)
            && (report == [] <==> ValueDups(d.value, []) == [])
  {
    ScanCollectsDuplicates(d);
    var dups := Run(DocumentText(d), START).dups;
    SortTextsAscends(dups);
    assert |multiset(dups)| == |dups|;
    assert |multiset(SortTexts(dups))| == |SortTexts(dups)|;
  }

  // ---- Against a last-wins parse --------------------------------------------

  function RawKeys(ms: Members): seq<Text> {
    if ms.MembersEnd? then [] else [SpellingText(ms.key)] + RawKeys(ms.rest)
  }

  function Keys(ms: Members): (r: seq<Text>)
    ensures |r| == |RawKeys(ms)|
  {
    if ms.MembersEnd? then [] else [SpellingValue(ms.key)] + Keys(ms.rest)
  }

  /** The object a last-wins parse builds (RFC 8259, section 4). */
  function Fields(ms: Members): map<Text, Value> {
    if ms.MembersEnd? then map[] else map[SpellingValue(ms.key) := ms.value] + Fields(ms.rest)
  }

  ghost predicate Distinct(s: seq<Text>) {
    forall j, k :: 0 <= j < k < |s| ==> s[j] != s[k]
  }

  /** Keys that denote one name are spelled one way. */
  ghost predicate SpelledAlike(ms: Members) {
    forall j, k :: 0 <= j < k < |Keys(ms)| && Keys(ms)[j] == Keys(ms)[k] ==> RawKeys(ms)[j] == RawKeys(ms)[k]
  }

  // Each of these holds of a value when it holds of every object in it.

  ghost predicate KeepsEveryMember(v: Value) {
    match v
    case Scalar(_) => true
    case Str(_) => true
    case Arr(elems) => KeepsEveryMemberElems(elems)
    case Obj(members) => |Fields(members)| == |Keys(members)| && KeepsEveryMemberIn(members)
  }

  ghost predicate KeepsEveryMemberElems(es: Elems) {
    es.Elem? ==> KeepsEveryMember(es.value) && KeepsEveryMemberElems(es.rest)
  }

  ghost predicate KeepsEveryMemberIn(ms: Members) {
    ms.Member? ==> KeepsEveryMember(ms.value) && KeepsEveryMemberIn(ms.rest)
  }

  ghost predicate ConsistentlySpelled(v: Value) {
    match v
    case Scalar(_) => true
    case Str(_) => true
    case Arr(elems) => ConsistentlySpelledElems(elems)
    case Obj(members) => SpelledAlike(members) && ConsistentlySpelledIn(members)
  }

  ghost predicate ConsistentlySpelledElems(es: Elems) {
    es.Elem? ==> ConsistentlySpelled(es.value) && ConsistentlySpelledElems(es.rest)
  }

  ghost predicate ConsistentlySpelledIn(ms: Members) {
    ms.Member? ==> ConsistentlySpelled(ms.value) && ConsistentlySpelledIn(ms.rest)
  }

  ghost function Names(s: seq<Text>): set<Text> {
    set k | k in s
  }

  lemma {:induction false} FieldsAreNames(ms: Members)
    ensures Fields(ms).Keys == Names(Keys(ms))
  {
    if ms.Member? {
      FieldsAreNames(ms.rest);
      assert Keys(ms) == [SpellingValue(ms.key)] + Keys(ms.rest);
    }
  }

  lemma {:induction false} NamesCount(s: seq<Text>)
    ensures |Names(s)| <= |s|
    ensures |Names(s)| == |s| <==> Distinct(s)
    decreases |s|
  {
    if s != [] {
      NamesCount(s[1..]);
      assert s == [s[0]] + s[1..];
      DistinctCons(s[0], s[1..]);
      assert Names(s) == {s[0]} + Names(s[1..]);
    }
  }

  lemma FieldsCount(ms: Members)
    ensures |Fields(ms)| == |Keys(ms)| <==> Distinct(Keys(ms))
  {
    FieldsAreNames(ms);
    NamesCount(Keys(ms));
    assert |Fields(ms)| == |Fields(ms).Keys|;
  }

  lemma DistinctCons(x: Text, s: seq<Text>)
    ensures Distinct([x] + s) <==> x !in s && Distinct(s)
  {
    if Distinct([x] + s) {
      assert ([x] + s)[0] == x;
      forall k | 0 <= k < |s| ensures s[k] != x { assert ([x] + s)[k + 1] == s[k]; }
      forall j, k | 0 <= j < k < |s| ensures s[j] != s[k] {
        assert ([x] + s)[j + 1] == s[j] && ([x] + s)[k + 1] == s[k];
      }
    }
  }

  lemma {:induction false} SpellingDetermined(s: Spelling, t: Spelling)
    requires WellFormedSpelling(s) && WellFormedSpelling(t) && SpellingText(s) == SpellingText(t)
    ensures s == t
    decreases |s|
  {
    if s != [] && t != [] {
      var a, b := PieceText(s[0]), PieceText(t[0]);
      assert SpellingText(s)[0] == a[0] && SpellingText(t)[0] == b[0];
      if !s[0].Plain? {
        assert SpellingText(s)[1] == a[1] && SpellingText(t)[1] == b[1];
      }
      assert |a| == |b|;
      assert a == SpellingText(s)[..|a|] == SpellingText(t)[..|a|] == b;
      assert SpellingText(s[1..]) == SpellingText(s)[|a|..] == SpellingText(t)[|a|..] == SpellingText(t[1..]);
      assert s[0] == t[0] by {
        if s[0].Hex? {
          assert a[2] == s[0].d0 && a[3] == s[0].d1 && a[4] == s[0].d2 && a[5] == s[0].d3;
          assert b[2] == t[0].d0 && b[3] == t[0].d1 && b[4] == t[0].d2 && b[5] == t[0].d3;
        }
      }
      SpellingDetermined(s[1..], t[1..]);
      assert s == [s[0]] + s[1..] && t == [t[0]] + t[1..];
    }
  }

  /** Members spelled alike denote one name. */
  lemma {:induction false} RawDecidesKey(ms: Members, raw: Spelling, k: nat)
    requires WellFormedMembers(ms) && WellFormedSpelling(raw)
    requires k < |RawKeys(ms)| && RawKeys(ms)[k] == SpellingText(raw)
    ensures Keys(ms)[k] == SpellingValue(raw)
    decreases ms
  {
    if k == 0 {
      SpellingDetermined(ms.key, raw);
    } else {
      RawDecidesKey(ms.rest, raw, k - 1);
    }
  }

  lemma {:induction false} RawKeySpelling(ms: Members, k: nat) returns (raw: Spelling)
    requires WellFormedMembers(ms) && k < |RawKeys(ms)|
    ensures WellFormedSpelling(raw) && RawKeys(ms)[k] == SpellingText(raw) && Keys(ms)[k] == SpellingValue(raw)
    decreases ms
  {
    if k == 0 { raw := ms.key; } else { raw := RawKeySpelling(ms.rest, k - 1); }
  }

  lemma DistinctnessOfKeys(ms: Members)
    requires WellFormedMembers(ms)
    ensures Distinct(Keys(ms)) <==> Distinct(RawKeys(ms)) && SpelledAlike(ms)
  {
    var keys, raws := Keys(ms), RawKeys(ms);
    forall j, k | 0 <= j < k < |raws| && raws[j] == raws[k] ensures keys[j] == keys[k] {
      var raw := RawKeySpelling(ms, j);
      RawDecidesKey(ms, raw, k);
    }
    hide Keys, RawKeys, WellFormedMembers;
    DistinctThrough(keys, raws);
  }

  /** Distinct names have distinct spellings; the converse needs one spelling a name. */
  lemma DistinctThrough(keys: seq<Text>, raws: seq<Text>)
    requires |keys| == |raws|
    requires forall j, k :: 0 <= j < k < |raws| && raws[j] == raws[k] ==> keys[j] == keys[k]
    ensures Distinct(keys) <==>
            (Distinct(raws) && forall j, k :: 0 <= j < k < |keys| && keys[j] == keys[k] ==> raws[j] == raws[k])
  {
  }

  /** No report from an object: its raw keys are new, and its values report nothing. */
  lemma {:induction false} NoMembersDups(ms: Members, pointer: Text, earlier: seq<Text>)
    ensures MembersDups(ms, pointer, earlier) == [] <==>
            && Distinct(RawKeys(ms)) && (forall k :: k in RawKeys(ms) ==> k !in earlier)
            && MembersDupFree(ms)
    decreases ms, 1
  {
    if ms.Member? {
      var key := SpellingText(ms.key);
      NoMembersDups(ms.rest, pointer, earlier + [key]);
      NoValueDups(ms.value, Pointer(pointer, key));
      DistinctCons(key, RawKeys(ms.rest));
    }
  }

  ghost predicate DupFree(v: Value) {
    match v
    case Scalar(_) => true
    case Str(_) => true
    case Arr(elems) => ElemsDupFree(elems)
    case Obj(members) => Distinct(RawKeys(members)) && MembersDupFree(members)
  }

  ghost predicate ElemsDupFree(es: Elems) {
    es.Elem? ==> DupFree(es.value) && ElemsDupFree(es.rest)
  }

  ghost predicate MembersDupFree(ms: Members) {
    ms.Member? ==> DupFree(ms.value) && MembersDupFree(ms.rest)
  }

  lemma {:induction false} NoValueDups(v: Value, pointer: Text)
    ensures ValueDups(v, pointer) == [] <==> DupFree(v)
    decreases v, 0
  {
    match v
    case Scalar(_) =>
    case Str(_) =>
    case Arr(elems) => NoElemsDups(elems, pointer);
    case Obj(members) => NoMembersDups(members, pointer, []);
  }

  lemma {:induction false} NoElemsDups(es: Elems, pointer: Text)
    ensures ElemsDups(es, pointer) == [] <==> ElemsDupFree(es)
    decreases es, 1
  {
    if es.Elem? {
      NoValueDups(es.value, pointer);
      NoElemsDups(es.rest, pointer);
    }
  }

  lemma {:induction false} KeepsIffUnique(v: Value)
    requires WellFormed(v)
    ensures KeepsEveryMember(v) <==> DupFree(v) && ConsistentlySpelled(v)
    decreases v, 0
  {
    match v
    case Scalar(_) =>
    case Str(_) =>
    case Arr(elems) => KeepsIffUniqueElems(elems);
    case Obj(members) =>
      FieldsCount(members);
      DistinctnessOfKeys(members);
      KeepsIffUniqueMembers(members);
  }

  lemma {:induction false} KeepsIffUniqueElems(es: Elems)
    requires WellFormedElems(es)
    ensures KeepsEveryMemberElems(es) <==> ElemsDupFree(es) && ConsistentlySpelledElems(es)
    decreases es, 1
  {
    if es.Elem? {
      KeepsIffUnique(es.value);
      KeepsIffUniqueElems(es.rest);
    }
  }

  lemma {:induction false} KeepsIffUniqueMembers(ms: Members)
    requires WellFormedMembers(ms)
    ensures KeepsEveryMemberIn(ms) <==> MembersDupFree(ms) && ConsistentlySpelledIn(ms)
    decreases ms, 1
  {
    if ms.Member? {
      KeepsIffUnique(ms.value);
      KeepsIffUniqueMembers(ms.rest);
    }
  }

  /**
   A last-wins parse keeps every member of every object exactly when the report is
   empty and no object spells one name in two ways.
   */
  lemma EmptyReportIffParseKeepsAll(d: Document)
    requires WellFormedDocument(d)
    ensures KeepsEveryMember(d.value) <==>
            Run(DocumentText(d), START).dups == [] && ConsistentlySpelled(d.value)
  {
    ScanCollectsDuplicates(d);
    NoValueDups(d.value, []);
    KeepsIffUnique(d.value);
  }

  // ---- Keys without escapes -------------------------------------------------

  predicate PlainKey(s: Spelling) {
    forall k :: 0 <= k < |s| ==> s[k].Plain?
  }

  predicate PlainKeys(v: Value) {
    match v
    case Scalar(_) => true
    case Str(_) => true
    case Arr(elems) => PlainKeysElems(elems)
    case Obj(members) => PlainKeysMembers(members)
  }

  predicate PlainKeysElems(es: Elems) {
    es.Elem? ==> PlainKeys(es.value) && PlainKeysElems(es.rest)
  }

  predicate PlainKeysMembers(ms: Members) {
    ms.Member? ==> PlainKey(ms.key) && PlainKeys(ms.value) && PlainKeysMembers(ms.rest)
  }

  lemma {:induction false} PlainKeyIsItsSpelling(s: Spelling)
    requires PlainKey(s)
    ensures SpellingText(s) == SpellingValue(s)
    decreases |s|
  {
    if s != [] { PlainKeyIsItsSpelling(s[1..]); }
  }

  lemma {:induction false} PlainKeysSpelledAlike(ms: Members)
    requires PlainKeysMembers(ms)
    ensures RawKeys(ms) == Keys(ms) && ConsistentlySpelledIn(ms)
    decreases ms, 1
  {
    if ms.Member? {
      PlainKeyIsItsSpelling(ms.key);
      PlainKeysConsistent(ms.value);
      PlainKeysSpelledAlike(ms.rest);
    }
  }

  lemma {:induction false} PlainKeysConsistent(v: Value)
    requires PlainKeys(v)
    ensures ConsistentlySpelled(v)
    decreases v, 0
  {
    match v
    case Scalar(_) =>
    case Str(_) =>
    case Arr(elems) => PlainKeysConsistentElems(elems);
    case Obj(members) => PlainKeysSpelledAlike(members);
  }

  lemma {:induction false} PlainKeysConsistentElems(es: Elems)
    requires PlainKeysElems(es)
    ensures ConsistentlySpelledElems(es)
    decreases es, 1
  {
    if es.Elem? {
      PlainKeysConsistent(es.value);
      PlainKeysConsistentElems(es.rest);
    }
  }

  /** When no key uses an escape, an empty report means the parse loses nothing. */
  lemma EmptyReportOnPlainKeys(d: Document)
    requires WellFormedDocument(d) && PlainKeys(d.value)
    ensures Run(DocumentText(d), START).dups == [] <==> KeepsEveryMember(d.value)
  {
    EmptyReportIffParseKeepsAll(d);
    PlainKeysConsistent(d.value);
  }

  const LETTER_A := [Plain(0x61)]
  const ESCAPED_A := [Hex(0x30, 0x30, 0x36, 0x31)]
  const ESCAPED_MEMBER := Member([], ESCAPED_A, [], [], Scalar([0x30]), [], MembersEnd([]))
  const TWICE_A := Document([], Obj(Member([], LETTER_A, [], [], Scalar([0x30]), [], ESCAPED_MEMBER)), [])

  lemma SpellingsOfA()
    ensures SpellingText(LETTER_A) == [0x61]
    ensures SpellingText(ESCAPED_A) == [BACKSLASH, LOWER_U, 0x30, 0x30, 0x36, 0x31]
    ensures SpellingValue(LETTER_A) == [0x61] == SpellingValue(ESCAPED_A)
  {
    assert LETTER_A[1..] == [] && ESCAPED_A[1..] == [];
    assert SpellingText([]) == [] && SpellingValue([]) == [];
  }

  /** `{"a":0,"\u0061":0}` is reported clean although a parse keeps one member of two. */
  lemma EscapedDuplicateGoesUnseen()
    ensures WellFormedDocument(TWICE_A)
    ensures Run(DocumentText(TWICE_A), START).dups == []
    ensures !KeepsEveryMember(TWICE_A.value)
  {
    ScanCollectsDuplicates(TWICE_A);
    FieldsCount(TWICE_A.value.members);
    KeysOfTwiceA();
    hide Run, DocumentText, Fields;
    assert Keys(TWICE_A.value.members)[0] == Keys(TWICE_A.value.members)[1];
  }

  lemma KeysOfTwiceA()
    ensures Keys(TWICE_A.value.members) == [[0x61], [0x61]]
    ensures ValueDups(TWICE_A.value, []) == []
  {
    SpellingsOfA();
    hide SpellingText, SpellingValue;
    assert SpellingText(ESCAPED_A)[0] == BACKSLASH;
    assert MembersDups(ESCAPED_MEMBER, [], [[0x61]]) == [];
  }
}

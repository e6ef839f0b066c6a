/**
 The position index, end to end: which texts it handles, what it holds, and
 exactly where it departs from the reading of RFC 8259 and from a plain dot join.
 */
module PositionIndexTheorems {
  import opened Texts
  import opened JsonSyntax
  import opened PositionIndex
  import opened PositionIndexProofs

  // ---- Termination ----------------------------------------------------------

  /** A round of `scanArray` on an element moves the cursor unless it faces `}`. */
  lemma ElementRoundProgress(text: Text, inherited: set<Text>, i: nat, index: Index, prefix: Text)
    requires i < |text| && !IsBlank(text[i]) && text[i] != CLOSE_BRACKET && text[i] != COMMA
    ensures var r := ScanValue(text, inherited, i, index, prefix);
            (r == Done(i, index)) <==> text[i] == CLOSE_BRACE
  {
  }

  /** `[}` is scanned forever. */
  lemma BraceInArrayNeverReturns(inherited: set<Text>)
    ensures Build([OPEN_BRACKET, CLOSE_BRACE], inherited) == None
  {
    var text := [OPEN_BRACKET, CLOSE_BRACE];
    assert BlanksEnd(text, 0) == 0 && BlanksEnd(text, 1) == 1;
    assert ScanElems(text, inherited, 1, map[], []).Endless?;
  }

  lemma DocumentStart(d: Document)
    requires WellFormedDocument(d)
    ensures BlanksEnd(DocumentText(d), 0) == |d.before|
    ensures ValueText(d.value) != [] && PeekAt(DocumentText(d), |d.before|) == ValueText(d.value)[0]
    ensures StandsAt(DocumentText(d), |d.before|, ValueText(d.value))
  {
    DocumentParts(d);
    ValueTextStart(d.value);
    hide ValueText, WellFormed;
    StandsAtUnit(DocumentText(d), |d.before|, ValueText(d.value), 0);
    BlanksEndOver(DocumentText(d), 0, d.before);
  }

  lemma {:induction false} BuildOverDocument(d: Document, inherited: set<Text>)
    requires WellFormedDocument(d)
    ensures Build(DocumentText(d), inherited) ==
            Some(NoteAll(DocumentText(d), inherited, map[], DocumentKeys(AsScanned, d)))
  {
    var text, v := DocumentText(d), d.value;
    DocumentStart(d);
    ValueTextStart(v);
    if v.Arr? || v.Obj? { BuildOverRoot(d, inherited); }
  }

  lemma {:induction false} BuildOverRoot(d: Document, inherited: set<Text>)
    requires d.value.Arr? || d.value.Obj?
    requires WellFormedDocument(d)
    ensures Build(DocumentText(d), inherited) ==
            Some(NoteAll(DocumentText(d), inherited, map[], DocumentKeys(AsScanned, d)))
  {
    var text, start, v := DocumentText(d), |d.before|, d.value;
    DocumentStart(d);
    hide StandsAt, ScanElems, ScanMembers, ElemsKeys, MembersKeys, ElemsText, MembersText, DocumentText, BlanksEnd,
         WellFormedElems, WellFormedMembers, NoteAll;
    if v.Arr? {
      StandsAtConcat(text, start, [OPEN_BRACKET], ElemsText(v.elems, true));
      ScanElemsOver(text, inherited, start + 1, map[], [], v.elems, true);
    } else {
      StandsAtConcat(text, start, [OPEN_BRACE], MembersText(v.members, true));
      ScanMembersOver(text, inherited, start + 1, map[], [], v.members, true);
    }
  }

  // ---- Contents -------------------------------------------------------------

  ghost predicate Occurs(occs: seq<Occurrence>, path: Text) {
    exists k :: 0 <= k < |occs| && occs[k].path == path
  }

  ghost predicate FirstAt(occs: seq<Occurrence>, k: nat)
    requires k < |occs|
  {
    forall j :: 0 <= j < k ==> occs[j].path != occs[k].path
  }

  lemma {:induction false} NoteAllKeepsFirst(text: Text, inherited: set<Text>, index: Index, occs: seq<Occurrence>)
    ensures var r := NoteAll(text, inherited, index, occs);
            && (forall p :: p in r <==> p in index || (p !in inherited && Occurs(occs, p)))
            && (forall p :: p in index ==> r[p] == index[p])
            && (forall k :: 0 <= k < |occs| && occs[k].path !in index && occs[k].path !in inherited && FirstAt(occs, k)
                  ==> occs[k].path in r && r[occs[k].path] == PositionAt(text, occs[k].at))
    decreases |occs|
  {
    if occs != [] {
      var rest := occs[1..];
      var next := Note(index, inherited, occs[0].path, PositionAt(text, occs[0].at));
      NoteAllKeepsFirst(text, inherited, next, rest);
      var r := NoteAll(text, inherited, index, occs);
      forall p ensures Occurs(occs, p) <==> occs[0].path == p || Occurs(rest, p) {
        if Occurs(occs, p) {
          var k :| 0 <= k < |occs| && occs[k].path == p;
          if k > 0 { assert rest[k - 1].path == p; }
        }
        if Occurs(rest, p) {
          var k :| 0 <= k < |rest| && rest[k].path == p;
          assert occs[k + 1].path == p;
        }
      }
      forall k | 0 <= k < |occs| && occs[k].path !in index && occs[k].path !in inherited && FirstAt(occs, k)
        ensures occs[k].path in r && r[occs[k].path] == PositionAt(text, occs[k].at)
      {
        if k > 0 {
          assert rest[k - 1] == occs[k] && occs[0].path != occs[k].path;
          assert FirstAt(rest, k - 1) by {
            forall j | 0 <= j < k - 1 ensures rest[j].path != rest[k - 1].path { assert rest[j] == occs[j + 1]; }
          }
        }
      }
    }
  }

  /**
   On every well-formed JSON text, in any layout, the scan returns; the index holds
   exactly the dot paths that occur and that no object answers to by inheritance,
   each at the line and column of the opening quote of its first occurrence.
   */
  lemma IndexHoldsFirstOccurrences(d: Document, inherited: set<Text>)
    requires WellFormedDocument(d)
    ensures var text, occs := DocumentText(d), DocumentKeys(AsScanned, d);
            var r := Build(text, inherited);
            && r.Some?
            && (forall p :: p in r.value <==> p !in inherited && Occurs(occs, p))
            && (forall k :: 0 <= k < |occs| && occs[k].path !in inherited && FirstAt(occs, k)
                  ==> occs[k].path in r.value && r.value[occs[k].path] == PositionAt(text, occs[k].at))
  {
    BuildOverDocument(d, inherited);
    NoteAllKeepsFirst(DocumentText(d), inherited, map[], DocumentKeys(AsScanned, d));
  }

  // ---- Document order -------------------------------------------------------

  /** Offsets lie in [lo, hi), grow, and each carries a quote of `text`. */
  ghost predicate Ordered(text: Text, occs: seq<Occurrence>, lo: nat, hi: nat) {
    && (forall k :: 0 <= k < |occs| ==> lo <= occs[k].at < hi && PeekAt(text, occs[k].at) == QUOTE)
    && (forall j, k :: 0 <= j < k < |occs| ==> occs[j].at < occs[k].at)
  }

  lemma OrderedConcat(text: Text, a: seq<Occurrence>, b: seq<Occurrence>, lo: nat, mid: nat, hi: nat)
    requires lo <= mid <= hi && Ordered(text, a, lo, mid) && Ordered(text, b, mid, hi)
    ensures Ordered(text, a + b, lo, hi)
  {
  }

  lemma OrderedWiden(text: Text, a: seq<Occurrence>, lo: nat, hi: nat, lo': nat, hi': nat)
    requires Ordered(text, a, lo, hi) && lo' <= lo && hi <= hi'
    ensures Ordered(text, a, lo', hi')
  {
  }

  lemma {:induction false} ValueKeysOrdered(text: Text, reader: Reader, v: Value, prefix: Text, at: nat)
    requires WellFormed(v) && StandsAt(text, at, ValueText(v))
    ensures Ordered(text, ValueKeys(reader, v, prefix, at), at, at + |ValueText(v)|)
    decreases v, 0
  {
    hide StandsAt, Ordered, ElemsKeys, MembersKeys, ElemsText, MembersText, WellFormedElems, WellFormedMembers;
    match v
    case Scalar(_) => OrderedEmpty(text, at, at + |ValueText(v)|);
    case Str(_) => OrderedEmpty(text, at, at + |ValueText(v)|);
    case Arr(elems) =>
      StandsAtConcat(text, at, [OPEN_BRACKET], ElemsText(elems, true));
      ElemsKeysOrdered(text, reader, elems, true, prefix, at + 1);
      OrderedWiden(text, ValueKeys(reader, v, prefix, at), at + 1, at + |ValueText(v)|, at, at + |ValueText(v)|);
    case Obj(members) =>
      StandsAtConcat(text, at, [OPEN_BRACE], MembersText(members, true));
      MembersKeysOrdered(text, reader, members, true, prefix, at + 1);
      OrderedWiden(text, ValueKeys(reader, v, prefix, at), at + 1, at + |ValueText(v)|, at, at + |ValueText(v)|);
  }

  lemma {:induction false} ElemsKeysOrdered(
    text: Text, reader: Reader, es: Elems, first: bool, prefix: Text, at: nat)
    requires WellFormedElems(es) && StandsAt(text, at, ElemsText(es, first))
    ensures Ordered(text, ElemsKeys(reader, es, first, prefix, at), at, at + |ElemsText(es, first)|)
    decreases es, if first then 1 else 2
  {
    hide StandsAt, ValueKeys, ValueText, WellFormed, BlanksEnd, Ordered;
    if es.ElemsEnd? {
      assert ElemsKeys(reader, es, first, prefix, at) == [];
      OrderedEmpty(text, at, at + |ElemsText(es, first)|);
    } else if !first {
      ElemComma(text, at, es);
      ElemKeysUnfold(es, prefix, at, reader);
      ElemsKeysOrdered(text, reader, es, true, prefix, at + 1);
      OrderedWiden(text, ElemsKeys(reader, es, false, prefix, at), at + 1, at + |ElemsText(es, false)|,
                   at, at + |ElemsText(es, false)|);
    } else {
      var start := at + |es.before|;
      var end := start + |ValueText(es.value)|;
      var next := end + |es.after|;
      ElemUnfold(es);
      ElemKeysUnfold(es, prefix, at, reader);
      ValueLayout(text, at, es.before, ValueText(es.value), es.after, ElemsText(es.rest, false));
      ValueKeysOrdered(text, reader, es.value, prefix, start);
      ElemsKeysOrdered(text, reader, es.rest, false, prefix, next);
      OrderedWiden(text, ValueKeys(reader, es.value, prefix, start), start, end, at, next);
      OrderedConcat(text, ValueKeys(reader, es.value, prefix, start),
                    ElemsKeys(reader, es.rest, false, prefix, next), at, next, next + |ElemsText(es.rest, false)|);
    }
  }

  lemma OrderedEmpty(text: Text, lo: nat, hi: nat)
    ensures Ordered(text, [], lo, hi)
  {
  }

  lemma {:induction false} MembersKeysOrdered(
    text: Text, reader: Reader, ms: Members, first: bool, prefix: Text, at: nat)
    requires WellFormedMembers(ms) && StandsAt(text, at, MembersText(ms, first))
    ensures Ordered(text, MembersKeys(reader, ms, first, prefix, at), at, at + |MembersText(ms, first)|)
    decreases ms, if first then 1 else 2
  {
    hide *;
    if ms.MembersEnd? {
      NoKeysAtEnd(reader, ms, first, prefix, at);
      OrderedEmpty(text, at, at + |MembersText(ms, first)|);
    } else if !first {
      MemberComma(text, at, ms);
      MemberKeysUnfold(ms, prefix, at, reader);
      MembersKeysOrdered(text, reader, ms, true, prefix, at + 1);
      OrderedWiden(text, MembersKeys(reader, ms, false, prefix, at), at + 1, at + |MembersText(ms, false)|,
                   at, at + |MembersText(ms, false)|);
    } else {
      var path := PathOf(prefix, KeyValue(reader, ms.key));
      var quote := at + |ms.before|;
      var colon := quote + |StringText(ms.key)| + |ms.beforeColon|;
      var start := colon + 1 + |ms.afterColon|;
      var end := start + |ValueText(ms.value)|;
      var next := end + |ms.after|;
      MemberSizeIs(ms);
      var keys := ValueKeys(reader, ms.value, path, start);
      var more := MembersKeys(reader, ms.rest, false, prefix, next);
      MemberUnfold(ms);
      MemberKeysUnfold(ms, prefix, at, reader);
      KeyLayout(text, at, ms.before, StringText(ms.key), ms.beforeColon, FromValue(ms));
      ValueLayout(text, colon + 1, ms.afterColon, ValueText(ms.value), ms.after, MembersText(ms.rest, false));
      ValueKeysOrdered(text, reader, ms.value, path, start);
      MembersKeysOrdered(text, reader, ms.rest, false, prefix, next);
      OrderedMember(text, Occurrence(path, quote), keys, more, at, start, end,
                    next, next + |MembersText(ms.rest, false)|);
    }
  }

  lemma NoKeysAtEnd(reader: Reader, ms: Members, first: bool, prefix: Text, at: nat)
    requires ms.MembersEnd?
    ensures MembersKeys(reader, ms, first, prefix, at) == []
  {
  }

  lemma MemberSizeIs(ms: Members)
    requires ms.Member?
    ensures MemberSize(ms) == |ms.before| + |StringText(ms.key)| + |ms.beforeColon| + 1 + |ms.afterColon| +
                              |ValueText(ms.value)| + |ms.after|
    ensures FromValue(ms) == ms.afterColon + (ValueText(ms.value) + (ms.after + MembersText(ms.rest, false)))
  {
  }

  lemma OrderedMember(text: Text, o: Occurrence, keys: seq<Occurrence>, more: seq<Occurrence>,
                      lo: nat, start: nat, end: nat, next: nat, hi: nat)
    requires lo <= o.at < start <= end <= next <= hi && PeekAt(text, o.at) == QUOTE
    requires Ordered(text, keys, start, end) && Ordered(text, more, next, hi)
    ensures Ordered(text, [o] + (keys + more), lo, hi)
  {
    OrderedWiden(text, keys, start, end, start, next);
    OrderedConcat(text, keys, more, start, next, hi);
    OrderedConcat(text, [o], keys + more, lo, start, hi);
  }

  /** Occurrences are listed in document order, and each offset is that of a quote. */
  lemma OccurrencesInDocumentOrder(d: Document, reader: Reader)
    requires WellFormedDocument(d)
    ensures Ordered(DocumentText(d), DocumentKeys(reader, d), 0, |DocumentText(d)|)
  {
    var text, start, v := DocumentText(d), |d.before|, d.value;
    hide ValueText, ValueKeys, Ordered, WellFormed;
    DocumentParts(d);
    ValueKeysOrdered(text, reader, v, [], start);
    OrderedWiden(text, DocumentKeys(reader, d), start, start + |ValueText(v)|, 0, |text|);
  }

  // ---- Lines and columns ----------------------------------------------------

  function CountNewlines(text: Text): nat {
    if text == [] then 0 else CountNewlines(text[..|text| - 1]) + (if text[|text| - 1] == NEWLINE then 1 else 0)
  }

  /** One more than the newlines before; one more than the units since the last newline. */
  lemma {:induction false} PositionCountsLinesAndColumns(text: Text, n: nat, lineStart: nat)
    requires lineStart <= n <= |text|
    requires lineStart == 0 || text[lineStart - 1] == NEWLINE
    requires forall k :: lineStart <= k < n ==> text[k] != NEWLINE
    ensures PositionAt(text, n) == Position(1 + CountNewlines(text[..n]), 1 + n - lineStart)
    decreases n
  {
    if n > 0 {
      assert text[..n][..n - 1] == text[..n - 1];
      if lineStart == n {
        var s := LineStart(text, n - 1);
        PositionCountsLinesAndColumns(text, n - 1, s);
      } else {
        PositionCountsLinesAndColumns(text, n - 1, lineStart);
      }
    }
  }

  ghost function LineStart(text: Text, n: nat): (s: nat)
    requires n <= |text|
    ensures s <= n && (s == 0 || text[s - 1] == NEWLINE)
    ensures forall k :: s <= k < n ==> text[k] != NEWLINE
  {
    if n == 0 || text[n - 1] == NEWLINE then n else LineStart(text, n - 1)
  }

  // ---- Against RFC 8259 and against a plain dot join ------------------------

  predicate UsesControlEscape(s: Spelling) {
    exists k :: 0 <= k < |s| && (s[k] == Escape(LOWER_B) || s[k] == Escape(LOWER_F))
  }

  predicate NoControlEscape(v: Value) {
    match v
    case Scalar(_) => true
    case Str(_) => true
    case Arr(elems) => NoControlEscapeElems(elems)
    case Obj(members) => NoControlEscapeMembers(members)
  }

  predicate NoControlEscapeElems(es: Elems) {
    es.Elem? ==> NoControlEscape(es.value) && NoControlEscapeElems(es.rest)
  }

  predicate NoControlEscapeMembers(ms: Members) {
    ms.Member? ==> !UsesControlEscape(ms.key) && NoControlEscape(ms.value) && NoControlEscapeMembers(ms.rest)
  }

  lemma {:induction false} KeyReadAlike(s: Spelling)
    requires WellFormedSpelling(s)
    ensures KeyValue(AsScanned, s) == KeyValue(AsRfc8259, s) <==> !UsesControlEscape(s)
    decreases |s|
  {
    if s != [] {
      var a, b := KeyValue(AsScanned, s), KeyValue(AsRfc8259, s);
      KeyReadAlike(s[1..]);
      assert a[1..] == KeyValue(AsScanned, s[1..]) && b[1..] == KeyValue(AsRfc8259, s[1..]);
      assert a == [a[0]] + a[1..] && b == [b[0]] + b[1..];
      assert UsesControlEscape(s) <==>
             s[0] == Escape(LOWER_B) || s[0] == Escape(LOWER_F) || UsesControlEscape(s[1..]) by {
        if UsesControlEscape(s[1..]) {
          var k :| 0 <= k < |s[1..]| && (s[1..][k] == Escape(LOWER_B) || s[1..][k] == Escape(LOWER_F));
          assert s[k + 1] == s[1..][k];
        }
      }
      assert WellFormedPiece(s[0]);
    }
  }

  lemma PathReadAlike(prefix: Text, a: Text, b: Text)
    ensures PathOf(prefix, a) == PathOf(prefix, b) <==> a == b
  {
    if prefix != [] {
      assert PathOf(prefix, a)[|prefix| + 1..] == a && PathOf(prefix, b)[|prefix| + 1..] == b;
    }
  }

  lemma ConcatAlike<T>(a: seq<T>, b: seq<T>, c: seq<T>, d: seq<T>)
    requires |a| == |c|
    ensures a + b == c + d <==> a == c && b == d
  {
    assert (a + b)[..|a|] == a && (a + b)[|a|..] == b;
    assert (c + d)[..|c|] == c && (c + d)[|c|..] == d;
  }

  lemma {:induction false} ValueKeysReadAlike(v: Value, prefix: Text, at: nat)
    requires WellFormed(v)
    ensures |ValueKeys(AsScanned, v, prefix, at)| == KeyCount(v)
    ensures |ValueKeys(AsRfc8259, v, prefix, at)| == KeyCount(v)
    ensures ValueKeys(AsScanned, v, prefix, at) == ValueKeys(AsRfc8259, v, prefix, at) <==> NoControlEscape(v)
    decreases v, 0
  {
    match v
    case Scalar(_) =>
    case Str(_) =>
    case Arr(elems) => ElemsKeysReadAlike(elems, true, prefix, at + 1);
    case Obj(members) => MembersKeysReadAlike(members, true, prefix, at + 1);
  }

  function KeyCount(v: Value): nat {
    match v
    case Scalar(_) => 0
    case Str(_) => 0
    case Arr(elems) => KeyCountElems(elems)
    case Obj(members) => KeyCountMembers(members)
  }

  function KeyCountElems(es: Elems): nat {
    if es.ElemsEnd? then 0 else KeyCount(es.value) + KeyCountElems(es.rest)
  }

  function KeyCountMembers(ms: Members): nat {
    if ms.MembersEnd? then 0 else 1 + KeyCount(ms.value) + KeyCountMembers(ms.rest)
  }

  lemma {:induction false} ElemsKeysReadAlike(es: Elems, first: bool, prefix: Text, at: nat)
    requires WellFormedElems(es)
    ensures |ElemsKeys(AsScanned, es, first, prefix, at)| == KeyCountElems(es)
    ensures |ElemsKeys(AsRfc8259, es, first, prefix, at)| == KeyCountElems(es)
    ensures ElemsKeys(AsScanned, es, first, prefix, at) == ElemsKeys(AsRfc8259, es, first, prefix, at) <==>
            NoControlEscapeElems(es)
    decreases es, 0
  {
    if es.Elem? {
      var start := at + |Separator(first)| + |es.before|;
      var next := start + |ValueText(es.value)| + |es.after|;
      ValueKeysReadAlike(es.value, prefix, start);
      ElemsKeysReadAlike(es.rest, false, prefix, next);
      ConcatAlike(ValueKeys(AsScanned, es.value, prefix, start), ElemsKeys(AsScanned, es.rest, false, prefix, next),
                  ValueKeys(AsRfc8259, es.value, prefix, start), ElemsKeys(AsRfc8259, es.rest, false, prefix, next));
    }
  }

  lemma {:induction false} MembersKeysReadAlike(ms: Members, first: bool, prefix: Text, at: nat)
    requires WellFormedMembers(ms)
    ensures |MembersKeys(AsScanned, ms, first, prefix, at)| == KeyCountMembers(ms)
    ensures |MembersKeys(AsRfc8259, ms, first, prefix, at)| == KeyCountMembers(ms)
    ensures MembersKeys(AsScanned, ms, first, prefix, at) == MembersKeys(AsRfc8259, ms, first, prefix, at) <==>
            NoControlEscapeMembers(ms)
    decreases ms, if first then 1 else 2
  {
    hide ValueText, StringText, PathOf, KeyValue, WellFormed, ValueKeys, UsesControlEscape, KeyCount, NoControlEscape;
    if ms.Member? && !first {
      MemberKeysUnfold(ms, prefix, at, AsScanned);
      MemberKeysUnfold(ms, prefix, at, AsRfc8259);
      MembersKeysReadAlike(ms, true, prefix, at + 1);
    } else if ms.Member? {
      var quote := at + |ms.before|;
      var start := quote + |StringText(ms.key)| + |ms.beforeColon| + 1 + |ms.afterColon|;
      var next := start + |ValueText(ms.value)| + |ms.after|;
      var p, q := PathOf(prefix, KeyValue(AsScanned, ms.key)), PathOf(prefix, KeyValue(AsRfc8259, ms.key));
      MemberKeysUnfold(ms, prefix, at, AsScanned);
      MemberKeysUnfold(ms, prefix, at, AsRfc8259);
      KeyReadAlike(ms.key);
      PathReadAlike(prefix, KeyValue(AsScanned, ms.key), KeyValue(AsRfc8259, ms.key));
      ValueKeysReadAlike(ms.value, p, start);
      ValueKeysReadAlike(ms.value, q, start);
      MembersKeysReadAlike(ms.rest, false, prefix, next);
      OccurrencesAlike(
        Occurrence(p, quote), ValueKeys(AsScanned, ms.value, p, start),
        MembersKeys(AsScanned, ms.rest, false, prefix, next),
        Occurrence(q, quote), ValueKeys(AsRfc8259, ms.value, q, start),
        MembersKeys(AsRfc8259, ms.rest, false, prefix, next));
    }
  }

  lemma OccurrencesAlike(x: Occurrence, a: seq<Occurrence>, b: seq<Occurrence>,
                         y: Occurrence, c: seq<Occurrence>, d: seq<Occurrence>)
    requires |a| == |c|
    ensures [x] + (a + b) == [y] + (c + d) <==> x == y && a == c && b == d
  {
    ConcatAlike(a, b, c, d);
    ConcatAlike([x], a + b, [y], c + d);
    assert [x] == [y] <==> x == y by {
      if [x] == [y] { assert [x][0] == y; }
    }
  }

  /** The recorded paths are those RFC 8259 gives exactly when no key uses `\b` or `\f`. */
  lemma IndexReadsAsRfc8259(d: Document)
    requires WellFormedDocument(d)
    ensures DocumentKeys(AsScanned, d) == DocumentKeys(AsRfc8259, d) <==> NoControlEscape(d.value)
  {
    ValueKeysReadAlike(d.value, [], |d.before|);
  }

  /** The path the scanner gives the last of a chain of nested keys. */
  function NestedPath(keys: seq<Text>): Text {
    if keys == [] then [] else PathOf(NestedPath(keys[..|keys| - 1]), keys[|keys| - 1])
  }

  function DotJoin(keys: seq<Text>): Text {
    if keys == [] then []
    else if |keys| == 1 then keys[0]
    else DotJoin(keys[..|keys| - 1]) + [DOT] + keys[|keys| - 1]
  }


  lemma {:induction false} PathLengths(keys: seq<Text>)
    ensures |NestedPath(keys)| <= |DotJoin(keys)|
    ensures keys != [] && keys[0] != [] ==> NestedPath(keys) == DotJoin(keys) && NestedPath(keys) != []
    ensures |keys| >= 2 && keys[0] == [] ==> |NestedPath(keys)| < |DotJoin(keys)|
    decreases |keys|
  {
    if |keys| >= 2 {
      PathLengths(keys[..|keys| - 1]);
    } else if |keys| == 1 {
      assert NestedPath(keys[..0]) == [];
    }
  }

  /** Nested paths are dot joins except under an empty outermost key, whose dot is dropped. */
  lemma NestedPathIsDotJoin(keys: seq<Text>)
    ensures NestedPath(keys) == DotJoin(keys) <==> |keys| < 2 || keys[0] != []
  {
    PathLengths(keys);
    if |keys| == 1 { assert NestedPath(keys[..0]) == []; }
  }
}

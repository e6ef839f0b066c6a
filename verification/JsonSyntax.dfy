/**
 Concrete syntax of JSON texts (RFC 8259, sections 2 to 7): a tree that keeps
 every blank and the raw spelling of every string, and its printer.

 A scalar token stands for a number, `true`, `false` or `null`. The tree admits
 any non-empty run of units that are neither blank, quote nor structural, which
 includes every token of sections 3 and 6.
 */
module JsonSyntax {
  import opened Texts

  const LOWER_B: Unit := 0x62
  const LOWER_F: Unit := 0x66
  const LOWER_N: Unit := 0x6E
  const LOWER_R: Unit := 0x72
  const LOWER_T: Unit := 0x74
  const LOWER_U: Unit := 0x75
  const BACKSPACE: Unit := 0x08
  const FORM_FEED: Unit := 0x0C

  predicate IsBlank(u: int) {
    u == SPACE || u == TAB || u == NEWLINE || u == RETURN
  }

  predicate Blank(s: Text) {
    forall k :: 0 <= k < |s| ==> IsBlank(s[k])
  }

  predicate IsStructural(u: int) {
    u == OPEN_BRACKET || u == CLOSE_BRACKET || u == OPEN_BRACE || u == CLOSE_BRACE ||
    u == COLON || u == COMMA
  }

  predicate IsScalarUnit(u: int) {
    u != END && !IsBlank(u) && !IsStructural(u) && u != QUOTE
  }

  /** What ends an unquoted token: a blank, `,`, `]`, `}` or the end of the text. */
  predicate IsBoundary(u: int) {
    u == END || IsBlank(u) || u == COMMA || u == CLOSE_BRACE || u == CLOSE_BRACKET
  }

  predicate IsHexDigit(u: int) {
    0x30 <= u <= 0x39 || 0x41 <= u <= 0x46 || 0x61 <= u <= 0x66
  }

  /** The four blanks of section 2, and which units can stand in a number or a literal (sections 3 and 6). */
  lemma UnitsByCharacter(u: int)
    ensures IsBlank(u) <==> u == ' ' as int || u == '\t' as int || u == '\n' as int || u == '\r' as int
    ensures ('0' as int <= u <= '9' as int || 'a' as int <= u <= 'z' as int || u == 'E' as int ||
             u == '+' as int || u == '-' as int || u == '.' as int) ==> IsScalarUnit(u)
    ensures IsStructural(u) <==> u == '[' as int || u == ']' as int || u == '{' as int || u == '}' as int ||
                                 u == ':' as int || u == ',' as int
  {
  }

  function HexDigit(u: int): (d: nat)
    ensures d < 16
  {
    if 0x30 <= u <= 0x39 then u - 0x30
    else if 0x41 <= u <= 0x46 then u - 0x37
    else if 0x61 <= u <= 0x66 then u - 0x57
    else 0
  }

  /** One piece of a string's raw spelling (section 7). */
  datatype Piece =
    | Plain(u: Unit)
    | Escape(c: Unit)
    | Hex(d0: Unit, d1: Unit, d2: Unit, d3: Unit)

  type Spelling = seq<Piece>

  predicate IsSimpleEscape(c: Unit) {
    c == QUOTE || c == BACKSLASH || c == SLASH || c == LOWER_B || c == LOWER_F ||
    c == LOWER_N || c == LOWER_R || c == LOWER_T
  }

  predicate WellFormedPiece(p: Piece) {
    match p
    case Plain(u) => 0x20 <= u && u != QUOTE && u != BACKSLASH
    case Escape(c) => IsSimpleEscape(c)
    case Hex(d0, d1, d2, d3) => IsHexDigit(d0) && IsHexDigit(d1) && IsHexDigit(d2) && IsHexDigit(d3)
  }

  predicate WellFormedSpelling(s: Spelling) {
    forall k :: 0 <= k < |s| ==> WellFormedPiece(s[k])
  }

  function PieceText(p: Piece): (r: Text)
    ensures |r| > 0
  {
    match p
    case Plain(u) => [u]
    case Escape(c) => [BACKSLASH, c]
    case Hex(d0, d1, d2, d3) => [BACKSLASH, LOWER_U, d0, d1, d2, d3]
  }

  /** The raw spelling between the quotes. */
  function SpellingText(s: Spelling): Text {
    if s == [] then [] else PieceText(s[0]) + SpellingText(s[1..])
  }

  function StringText(s: Spelling): Text {
    [QUOTE] + SpellingText(s) + [QUOTE]
  }

  /** Where the first piece of a spelling and the rest of it stand. */
  lemma SpellingSplit(text: Text, i: nat, s: Spelling)
    requires s != [] && WellFormedSpelling(s) && StandsAt(text, i, SpellingText(s) + [QUOTE])
    ensures WellFormedPiece(s[0]) && WellFormedSpelling(s[1..])
    ensures StandsAt(text, i, PieceText(s[0]))
    ensures StandsAt(text, i + |PieceText(s[0])|, SpellingText(s[1..]) + [QUOTE])
    ensures SpellingText(s) == PieceText(s[0]) + SpellingText(s[1..])
  {
    hide PieceText, WellFormedPiece;
    assert SpellingText(s) + [QUOTE] == PieceText(s[0]) + (SpellingText(s[1..]) + [QUOTE]);
    StandsAtConcat(text, i, PieceText(s[0]), SpellingText(s[1..]) + [QUOTE]);
  }

  function HexValue(d0: Unit, d1: Unit, d2: Unit, d3: Unit): Unit {
    ((HexDigit(d0) * 16 + HexDigit(d1)) * 16 + HexDigit(d2)) * 16 + HexDigit(d3)
  }

  /** The unit a piece denotes (section 7). */
  function PieceValue(p: Piece): Unit {
    match p
    case Plain(u) => u
    case Escape(c) =>
      if c == LOWER_B then BACKSPACE
      else if c == LOWER_F then FORM_FEED
      else if c == LOWER_N then NEWLINE
      else if c == LOWER_R then RETURN
      else if c == LOWER_T then TAB
      else c
    case Hex(d0, d1, d2, d3) => HexValue(d0, d1, d2, d3)
  }

  /** The string a spelling denotes. */
  function SpellingValue(s: Spelling): Text {
    if s == [] then [] else [PieceValue(s[0])] + SpellingValue(s[1..])
  }

  datatype Value =
    | Scalar(token: Text)
    | Str(body: Spelling)
    | Arr(elems: Elems)
    | Obj(members: Members)

  datatype Elems =
    | ElemsEnd(pad: Text)
    | Elem(before: Text, value: Value, after: Text, rest: Elems)

  datatype Members =
    | MembersEnd(pad: Text)
    | Member(before: Text, key: Spelling, beforeColon: Text, afterColon: Text, value: Value, after: Text,
             rest: Members)

  datatype Document = Document(before: Text, value: Value, after: Text)

  predicate WellFormed(v: Value) {
    match v
    case Scalar(token) => token != [] && forall k :: 0 <= k < |token| ==> IsScalarUnit(token[k])
    case Str(body) => WellFormedSpelling(body)
    case Arr(elems) => WellFormedElems(elems)
    case Obj(members) => WellFormedMembers(members)
  }

  predicate WellFormedElems(es: Elems) {
    match es
    case ElemsEnd(pad) => Blank(pad)
    case Elem(before, value, after, rest) =>
      Blank(before) && WellFormed(value) && Blank(after) && WellFormedElems(rest)
  }

  predicate WellFormedMembers(ms: Members) {
    match ms
    case MembersEnd(pad) => Blank(pad)
    case Member(before, key, beforeColon, afterColon, value, after, rest) =>
      Blank(before) && WellFormedSpelling(key) && Blank(beforeColon) && Blank(afterColon) &&
      WellFormed(value) && Blank(after) && WellFormedMembers(rest)
  }

  predicate WellFormedDocument(d: Document) {
    Blank(d.before) && WellFormed(d.value) && Blank(d.after)
  }

  function ValueText(v: Value): Text {
    match v
    case Scalar(token) => token
    case Str(body) => StringText(body)
    case Arr(elems) => [OPEN_BRACKET] + ElemsText(elems, true)
    case Obj(members) => [OPEN_BRACE] + MembersText(members, true)
  }

  function Separator(first: bool): Text {
    if first then [] else [COMMA]
  }

  /** The rest of an array, its closing bracket included. */
  function ElemsText(es: Elems, first: bool): Text {
    match es
    case ElemsEnd(pad) => pad + [CLOSE_BRACKET]
    case Elem(before, value, after, rest) =>
      Separator(first) + (before + (ValueText(value) + (after + ElemsText(rest, false))))
  }


  /** The rest of an object, its closing brace included. */
  function MembersText(ms: Members, first: bool): Text {
    match ms
    case MembersEnd(pad) => pad + [CLOSE_BRACE]
    case Member(before, key, beforeColon, afterColon, value, after, rest) =>
      Separator(first) +
      (before + (StringText(key) + (beforeColon + ([COLON] + (afterColon +
        (ValueText(value) + (after + MembersText(rest, false))))))))
  }

  function DocumentText(d: Document): Text {
    d.before + (ValueText(d.value) + d.after)
  }

  lemma ValueTextStart(v: Value)
    requires WellFormed(v)
    ensures |ValueText(v)| > 0
    ensures var u := ValueText(v)[0];
            match v
            case Scalar(_) => IsScalarUnit(u)
            case Str(_) => u == QUOTE
            case Arr(_) => u == OPEN_BRACKET
            case Obj(_) => u == OPEN_BRACE
  {
  }

  /** Whatever follows a value inside an array ends an unquoted token. */
  lemma AfterElemIsBoundary(after: Text, rest: Elems)
    requires Blank(after) && WellFormedElems(rest)
    ensures var t := after + ElemsText(rest, false); |t| > 0 && IsBoundary(t[0])
  {
    if after == [] { assert after + ElemsText(rest, false) == ElemsText(rest, false); }
  }

  lemma AfterMemberIsBoundary(after: Text, rest: Members)
    requires Blank(after) && WellFormedMembers(rest)
    ensures var t := after + MembersText(rest, false); |t| > 0 && IsBoundary(t[0])
  {
    if after == [] { assert after + MembersText(rest, false) == MembersText(rest, false); }
  }

  lemma DocumentParts(d: Document)
    ensures var text, start := DocumentText(d), |d.before|;
            && StandsAt(text, 0, d.before) && StandsAt(text, start, ValueText(d.value))
            && StandsAt(text, start + |ValueText(d.value)|, d.after)
            && |text| == start + |ValueText(d.value)| + |d.after|
  {
    ThreePartsStand(d.before, ValueText(d.value), d.after);
  }

  // Sizes and shapes of the next element or member, for proofs that hide the printer.

  function ElemSize(es: Elems): nat
    requires es.Elem?
  {
    |es.before| + |ValueText(es.value)| + |es.after|
  }

  lemma ElemUnfold(es: Elems)
    requires es.Elem? && WellFormedElems(es)
    ensures ElemsText(es, true) == es.before + (ValueText(es.value) + (es.after + ElemsText(es.rest, false)))
    ensures ElemsText(es, false) == [COMMA] + ElemsText(es, true)
    ensures |ElemsText(es, true)| == ElemSize(es) + |ElemsText(es.rest, false)|
    ensures WellFormed(es.value) && WellFormedElems(es.rest) && Blank(es.before) && Blank(es.after)
    ensures var t := es.after + ElemsText(es.rest, false); t != [] && IsBoundary(t[0])
    ensures var t := ValueText(es.value); t != [] && !IsBoundary(t[0]) && !IsBlank(t[0])
  {
    AfterElemIsBoundary(es.after, es.rest);
    ValueTextStart(es.value);
  }

  function ColonOffset(ms: Members): nat
    requires ms.Member?
  {
    |ms.before| + |StringText(ms.key)| + |ms.beforeColon|
  }

  function MemberSize(ms: Members): nat
    requires ms.Member?
  {
    ColonOffset(ms) + 1 + |ms.afterColon| + |ValueText(ms.value)| + |ms.after|
  }

  function FromValue(ms: Members): Text
    requires ms.Member?
  {
    ms.afterColon + (ValueText(ms.value) + (ms.after + MembersText(ms.rest, false)))
  }

  lemma MemberUnfold(ms: Members)
    requires ms.Member? && WellFormedMembers(ms)
    ensures MembersText(ms, true) == ms.before + (StringText(ms.key) + (ms.beforeColon + ([COLON] + FromValue(ms))))
    ensures MembersText(ms, false) == [COMMA] + MembersText(ms, true)
    ensures |MembersText(ms, true)| == MemberSize(ms) + |MembersText(ms.rest, false)|
    ensures WellFormedSpelling(ms.key) && WellFormed(ms.value) && WellFormedMembers(ms.rest)
    ensures Blank(ms.before) && Blank(ms.beforeColon) && Blank(ms.afterColon) && Blank(ms.after)
    ensures StringText(ms.key) != [] && StringText(ms.key)[0] == QUOTE
    ensures var t := ms.after + MembersText(ms.rest, false); t != [] && IsBoundary(t[0])
    ensures var t := ValueText(ms.value); t != [] && !IsBoundary(t[0]) && !IsBlank(t[0])
  {
    AfterMemberIsBoundary(ms.after, ms.rest);
    ValueTextStart(ms.value);
  }
}

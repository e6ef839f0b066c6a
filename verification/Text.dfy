/**
 Text as the repository's code sees it: a sequence of UTF-16 code units.

 JavaScript strings index, compare and concatenate code units, so both JSON
 scanners, the ISO day strings and every `<` on strings are stated over `Text`.
 */
module Texts {

  type Unit = u: int | 0 <= u < 0x10000

  type Text = seq<Unit>

  datatype Option<+T> = None | Some(value: T)

  const TAB: Unit := 0x09
  const NEWLINE: Unit := 0x0A
  const RETURN: Unit := 0x0D
  const SPACE: Unit := 0x20
  const QUOTE: Unit := 0x22
  const PLUS: Unit := 0x2B
  const COMMA: Unit := 0x2C
  const DASH: Unit := 0x2D
  const DOT: Unit := 0x2E
  const SLASH: Unit := 0x2F
  const COLON: Unit := 0x3A
  const OPEN_BRACKET: Unit := 0x5B
  const BACKSLASH: Unit := 0x5C
  const CLOSE_BRACKET: Unit := 0x5D
  const OPEN_BRACE: Unit := 0x7B
  const CLOSE_BRACE: Unit := 0x7D

  /** What `text[i] ?? ""` yields: a unit, or END past the last one. */
  const END: int := -1

  function PeekAt(text: Text, i: nat): int {
    if i < |text| then text[i] else END
  }

  /** Units left to read; a cursor may run past the end of the text. */
  function Left(text: Text, i: nat): nat {
    if i < |text| then |text| - i else 0
  }

  /** The white space of `\s`, `trim` and `parseInt` (ECMA-262, sections 12.2 and 12.3). */
  predicate IsJsSpace(u: int) {
    0x09 <= u <= 0x0D || u == 0x20 || u == 0xA0 || u == 0x1680 || 0x2000 <= u <= 0x200A ||
    u == 0x2028 || u == 0x2029 || u == 0x202F || u == 0x205F || u == 0x3000 || u == 0xFEFF
  }

  /** The named units are these characters. */
  lemma UnitsAreCharacters()
    ensures TAB == '\t' as int && NEWLINE == '\n' as int && RETURN == '\r' as int && SPACE == ' ' as int
    ensures QUOTE == '"' as int && BACKSLASH == '\\' as int && SLASH == '/' as int && DASH == '-' as int
    ensures COMMA == ',' as int && COLON == ':' as int && DOT == '.' as int && PLUS == '+' as int
    ensures OPEN_BRACE == '{' as int && CLOSE_BRACE == '}' as int
    ensures OPEN_BRACKET == '[' as int && CLOSE_BRACKET == ']' as int
  {
  }

  /** White space and line terminators, one by one: five controls, the space separators, and the byte order mark. */
  const JS_SPACES: seq<int> :=
    ['\t' as int, '\n' as int, 0x0B, 0x0C, '\r' as int, ' ' as int, 0xA0, 0x1680, 0x2000, 0x2001, 0x2002, 0x2003,
     0x2004, 0x2005, 0x2006, 0x2007, 0x2008, 0x2009, 0x200A, 0x2028, 0x2029, 0x202F, 0x205F, 0x3000, 0xFEFF]

  lemma JsSpacesAre(u: int)
    ensures IsJsSpace(u) <==> u in JS_SPACES
  {
  }

  /** The text `s` stands in `text` at offset `i`. */
  ghost predicate StandsAt(text: Text, i: nat, s: Text) {
    i + |s| <= |text| && forall k :: 0 <= k < |s| ==> text[i + k] == s[k]
  }

  lemma StandsAtUnit(text: Text, i: nat, s: Text, k: nat)
    requires StandsAt(text, i, s) && k < |s|
    ensures text[i + k] == s[k] && PeekAt(text, i + k) == s[k]
  {
  }

  lemma StandsAtConcat(text: Text, i: nat, a: Text, b: Text)
    requires StandsAt(text, i, a + b)
    ensures StandsAt(text, i, a) && StandsAt(text, i + |a|, b)
  {
    forall k | 0 <= k < |a| ensures text[i + k] == a[k] {
      assert (a + b)[k] == a[k];
    }
    forall k | 0 <= k < |b| ensures text[i + |a| + k] == b[k] {
      assert (a + b)[|a| + k] == b[k];
    }
  }

  lemma ThreePartsStand(a: Text, b: Text, c: Text)
    ensures var text := a + (b + c);
            StandsAt(text, 0, a) && StandsAt(text, |a|, b) && StandsAt(text, |a| + |b|, c)
  {
    var text := a + (b + c);
    StandsAtConcat(text, 0, a, b + c);
    StandsAtConcat(text, |a|, b, c);
  }

  /** Lexicographic order on code units: `<` on JavaScript strings. */
  predicate Less(a: Text, b: Text) {
    if b == [] then false
    else if a == [] then true
    else a[0] < b[0] || (a[0] == b[0] && Less(a[1..], b[1..]))
  }

  predicate AtMost(a: Text, b: Text) {
    !Less(b, a)
  }

  lemma {:induction false} LessTotal(a: Text, b: Text)
    ensures Less(a, b) || a == b || Less(b, a)
    ensures !(Less(a, b) && Less(b, a))
    ensures !Less(a, a)
  {
    if a != [] && b != [] {
      LessTotal(a[1..], b[1..]);
      LessTotal(a[1..], a[1..]);
      assert a == [a[0]] + a[1..] && b == [b[0]] + b[1..];
    } else if a != [] {
      LessTotal(a[1..], a[1..]);
    }
  }

  lemma {:induction false} LessTransitive(a: Text, b: Text, c: Text)
    requires Less(a, b) && Less(b, c)
    ensures Less(a, c)
  {
    if a != [] {
      if a[0] == b[0] && b[0] == c[0] {
        LessTransitive(a[1..], b[1..], c[1..]);
      }
    }
  }

  /** The first unit in which the two differ decides, and a text comes after its proper prefixes. */
  lemma {:induction false} LessIff(a: Text, b: Text)
    ensures Less(a, b) <==>
            (|a| < |b| && b[..|a|] == a) ||
            exists k :: 0 <= k < |a| && k < |b| && a[..k] == b[..k] && a[k] < b[k]
  {
    if a != [] && b != [] {
      LessIff(a[1..], b[1..]);
      if |a| < |b| { assert b[..|a|] == [b[0]] + b[1..][..|a| - 1]; }
      assert a == [a[0]] + a[1..];
      if k :| 0 <= k < |a| - 1 && k < |b| - 1 && a[1..][..k] == b[1..][..k] && a[1..][k] < b[1..][k] {
        if a[0] == b[0] {
          assert a[..k + 1] == [a[0]] + a[1..][..k] && b[..k + 1] == [b[0]] + b[1..][..k];
          assert a[k + 1] < b[k + 1];
        }
      }
      if k :| 0 < k < |a| && k < |b| && a[..k] == b[..k] && a[k] < b[k] {
        assert a[..k][0] == b[..k][0];
        assert a[1..][..k - 1] == a[..k][1..] && b[1..][..k - 1] == b[..k][1..];
        assert a[1..][k - 1] < b[1..][k - 1];
      }
      if a[0] < b[0] { assert a[..0] == b[..0]; }
    }
  }

  lemma AtMostTransitive(a: Text, b: Text, c: Text)
    requires AtMost(a, b) && AtMost(b, c)
    ensures AtMost(a, c)
  {
    LessTotal(a, b);
    LessTotal(b, c);
    if Less(a, b) && Less(b, c) {
      LessTransitive(a, b, c);
      LessTotal(a, c);
    }
  }

  ghost predicate Ascending(s: seq<Text>) {
    forall i, j :: 0 <= i < j < |s| ==> AtMost(s[i], s[j])
  }

  function InsertText(x: Text, s: seq<Text>): (r: seq<Text>)
    ensures multiset(r) == multiset(s) + multiset{x}
  {
    if s == [] then [x]
    else if AtMost(x, s[0]) then [x] + s
    else
      assert s == [s[0]] + s[1..];
      [s[0]] + InsertText(x, s[1..])
  }

  lemma {:induction false} InsertTextAscends(x: Text, s: seq<Text>)
    requires Ascending(s)
    ensures Ascending(InsertText(x, s))
  {
    if s != [] {
      if AtMost(x, s[0]) {
        forall k | 0 <= k < |s| ensures AtMost(x, s[k]) {
          LessTotal(s[0], s[0]);
          AtMostTransitive(x, s[0], s[k]);
        }
      } else {
        LessTotal(x, s[0]);
        InsertTextAscends(x, s[1..]);
        var rest := InsertText(x, s[1..]);
        forall k | 0 <= k < |rest| ensures AtMost(s[0], rest[k]) {
          assert rest[k] in multiset(rest);
          assert rest[k] == x || rest[k] in s[1..];
        }
      }
    }
  }

  /** `Array.prototype.sort` with no comparator: ascending by code units. */
  function SortTexts(s: seq<Text>): (r: seq<Text>)
    ensures multiset(r) == multiset(s)
  {
    if s == [] then []
    else
      assert s == [s[0]] + s[1..];
      InsertText(s[0], SortTexts(s[1..]))
  }

  lemma {:induction false} SortTextsAscends(s: seq<Text>)
    ensures Ascending(SortTexts(s))
  {
    if s != [] {
      SortTextsAscends(s[1..]);
      InsertTextAscends(s[0], SortTexts(s[1..]));
    }
  }
}

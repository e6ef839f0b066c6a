/**
 The source-position scanner of packages/config-parser/src/positionIndex.ts.

 The functions say what every scanning routine leaves behind on any text
 whatsoever; the class is the scanner itself, a cursor and an index mutated in
 place, each method proved to leave exactly what its function says.

 `skipValue` consumes nothing when it meets `}`, so `scanArray` never returns from
 a `}` in element position. That outcome is explicit here: `Endless`.
 */
module PositionIndex {
  import opened Texts
  import opened JsonSyntax

  datatype Position = Position(line: nat, column: nat)

  type Index = map<Text, Position>

  /** Line and column of the cursor after `n` units have been consumed. */
  function PositionAt(text: Text, n: nat): Position {
    if n == 0 then Position(1, 1)
    else
      var p := PositionAt(text, n - 1);
      if PeekAt(text, n - 1) == NEWLINE then Position(p.line + 1, 1) else Position(p.line, p.column + 1)
  }

  function BlanksEnd(text: Text, i: nat): (j: nat)
    ensures i <= j
    ensures !IsBlank(PeekAt(text, j))
    ensures j < |text| || j == i || j == |text|
    decreases Left(text, i)
  {
    if IsBlank(PeekAt(text, i)) then BlanksEnd(text, i + 1) else i
  }

  predicate EndsToken(u: int) {
    u == COMMA || u == CLOSE_BRACE || u == CLOSE_BRACKET || IsBlank(u)
  }

  function TokenEnd(text: Text, i: nat): (j: nat)
    ensures i <= j
    ensures i < |text| && !EndsToken(text[i]) ==> i < j
    decreases Left(text, i)
  {
    if i < |text| && !EndsToken(text[i]) then TokenEnd(text, i + 1) else i
  }

  // `Number.parseInt(h, 16)` followed by `String.fromCharCode`.

  function TrimLeft(h: Text): (r: Text)
    ensures |r| <= |h|
  {
    if h != [] && IsJsSpace(h[0]) then TrimLeft(h[1..]) else h
  }

  function HexPrefix(h: Text): (r: Option<nat>)
    decreases |h|
  {
    if h == [] then None
    else
      var u := h[|h| - 1];
      var front := h[..|h| - 1];
      if forall k :: 0 <= k < |h| ==> IsHexDigit(h[k]) then
        var v := HexPrefix(front);
        Some((if v.Some? then v.value * 16 else 0) + HexDigit(u))
      else HexPrefix(front)
  }

  function ParseHex(h: Text): Option<int> {
    var s := TrimLeft(h);
    var negative := s != [] && s[0] == DASH;
    var unsigned := if s != [] && (s[0] == DASH || s[0] == PLUS) then s[1..] else s;
    var digits := if |unsigned| >= 2 && unsigned[0] == 0x30 && (unsigned[1] == 0x78 || unsigned[1] == 0x58)
                  then unsigned[2..] else unsigned;
    var v: Option<int> := HexPrefix(digits);
    if v.None? then None else Some(if negative then -v.value else v.value)
  }

  function FromHexEscape(h: Text): Text {
    var code := ParseHex(h);
    if code.None? then [] else [code.value % 0x10000]
  }

  /** `for (k < 4) hex += advance(c)` from `i`. */
  function FourUnits(text: Text, i: nat): Text {
    if i >= |text| then [] else if i + 4 <= |text| then text[i..i + 4] else text[i..]
  }

  /** What a simple escape contributes to a key: `b` and `f` stay letters here. */
  function EscapeText(esc: int): Text
    requires esc == END || 0 <= esc < 0x10000
  {
    if esc == LOWER_N then [NEWLINE]
    else if esc == LOWER_T then [TAB]
    else if esc == LOWER_R then [RETURN]
    else if esc == END then []
    else [esc]
  }

  datatype Read = Read(value: Text, next: nat)

  /** The loop of `readString`, with `out` read so far. */
  function ReadFrom(text: Text, i: nat, out: Text): (r: Read)
    ensures i <= r.next
    decreases Left(text, i)
  {
    if i >= |text| then Read(out, i)
    else if text[i] == BACKSLASH then
      var esc := PeekAt(text, i + 1);
      if esc == LOWER_U then ReadFrom(text, i + 6, out + FromHexEscape(FourUnits(text, i + 2)))
      else ReadFrom(text, i + 2, out + EscapeText(esc))
    else if text[i] == QUOTE then Read(out, i + 1)
    else ReadFrom(text, i + 1, out + [text[i]])
  }

  function ReadString(text: Text, i: nat): (r: Read)
    ensures i < r.next
  {
    ReadFrom(text, i + 1, [])
  }

  function PathOf(prefix: Text, key: Text): Text {
    if prefix == [] then key else prefix + [DOT] + key
  }

  /** `if (!(path in index)) index[path] = ...`; `inherited` holds the names every object answers to. */
  function Note(index: Index, inherited: set<Text>, path: Text, p: Position): Index {
    if path in index || path in inherited then index else index[path := p]
  }

  datatype Scan = Done(next: nat, index: Index) | Endless

  function ScanValue(text: Text, inherited: set<Text>, i: nat, index: Index, prefix: Text): (r: Scan)
    ensures r.Done? ==> i <= r.next
    ensures r.Done? && i < |text| && !EndsToken(text[i]) ==> i < r.next
    decreases Left(text, i), 1
  {
    var j := BlanksEnd(text, i);
    var ch := PeekAt(text, j);
    if ch == OPEN_BRACE then ScanMembers(text, inherited, j + 1, index, prefix)
    else if ch == OPEN_BRACKET then ScanElems(text, inherited, j + 1, index, prefix)
    else if ch == QUOTE then Done(ReadString(text, j).next, index)
    else Done(TokenEnd(text, j), index)
  }

  /** The loop of `scanArray`. */
  function ScanElems(text: Text, inherited: set<Text>, i: nat, index: Index, prefix: Text): (r: Scan)
    ensures r.Done? ==> i <= r.next
    decreases Left(text, i), 2
  {
    var j := BlanksEnd(text, i);
    var ch := PeekAt(text, j);
    if ch == CLOSE_BRACKET then Done(j + 1, index)
    else if ch == END then Done(j, index)
    else if ch == COMMA then ScanElems(text, inherited, j + 1, index, prefix)
    else if ch == CLOSE_BRACE then Endless
    else
      var r := ScanValue(text, inherited, j, index, prefix);
      if r.Endless? then Endless else ScanElems(text, inherited, r.next, r.index, prefix)
  }

  /** The loop of `scanObject`. */
  function ScanMembers(text: Text, inherited: set<Text>, i: nat, index: Index, prefix: Text): (r: Scan)
    ensures r.Done? ==> i <= r.next
    decreases Left(text, i), 2
  {
    var j := BlanksEnd(text, i);
    var ch := PeekAt(text, j);
    if ch == CLOSE_BRACE then Done(j + 1, index)
    else if ch == END then Done(j, index)
    else if ch != QUOTE then ScanMembers(text, inherited, j + 1, index, prefix)
    else
      var key := ReadString(text, j);
      var path := PathOf(prefix, key.value);
      var noted := Note(index, inherited, path, PositionAt(text, j));
      var colon := BlanksEnd(text, key.next);
      var start := if PeekAt(text, colon) == COLON then colon + 1 else colon;
      var r := ScanValue(text, inherited, start, noted, path);
      if r.Endless? then Endless else ScanMembers(text, inherited, r.next, r.index, prefix)
  }

  /** The index `buildPositionIndex` returns, or None when it never returns. */
  function Build(text: Text, inherited: set<Text>): Option<Index> {
    var j := BlanksEnd(text, 0);
    var ch := PeekAt(text, j);
    var r := if ch == OPEN_BRACE then ScanMembers(text, inherited, j + 1, map[], [])
             else if ch == OPEN_BRACKET then ScanElems(text, inherited, j + 1, map[], [])
             else Done(j, map[]);
    if r.Endless? then None else Some(r.index)
  }

  /**
   The scanner: cursor and index, shared by every routine and updated in place.
   Methods that scan values answer whether the source would loop forever.
   */
  class Scanner {
    const text: Text
    const inherited: set<Text>
    var i: nat
    var line: nat
    var col: nat
    var index: Index

    /** The cursor's line and column are those of its offset. */
    ghost predicate Valid()
      reads this
    {
      PositionAt(text, i) == Position(line, col)
    }

    constructor (text: Text, inherited: set<Text>)
      ensures this.text == text && this.inherited == inherited
      ensures Valid() && i == 0 && index == map[]
    {
      this.text := text;
      this.inherited := inherited;
      i, line, col, index := 0, 1, 1, map[];
    }

    method Advance() returns (ch: int)
      requires Valid()
      modifies `i, `line, `col
      ensures Valid() && i == old(i) + 1 && ch == PeekAt(text, old(i))
    {
      ch := PeekAt(text, i);
      i := i + 1;
      if ch == NEWLINE {
        line, col := line + 1, 1;
      } else {
        col := col + 1;
      }
    }

    method SkipWhitespace()
      requires Valid()
      modifies `i, `line, `col
      ensures Valid() && i == BlanksEnd(text, old(i))
    {
      while i < |text|
        invariant Valid() && old(i) <= i && BlanksEnd(text, i) == BlanksEnd(text, old(i))
        decreases Left(text, i)
      {
        var ch := PeekAt(text, i);
        if ch == SPACE || ch == TAB || ch == NEWLINE || ch == RETURN {
          var _ := Advance();
        } else {
          break;
        }
      }
    }

    method ReadStringToken() returns (out: Text)
      requires Valid()
      modifies `i, `line, `col
      ensures Valid() && Read(out, i) == ReadString(text, old(i))
    {
      hide PositionAt, ParseHex;
      var _ := Advance();
      out := [];
      while i < |text|
        invariant Valid() && old(i) < i && ReadFrom(text, i, out) == ReadString(text, old(i))
        decreases Left(text, i)
      {
        var ch := Advance();
        if ch == BACKSLASH {
          var esc := Advance();
          if esc == LOWER_N { out := out + [NEWLINE]; }
          else if esc == LOWER_T { out := out + [TAB]; }
          else if esc == LOWER_R { out := out + [RETURN]; }
          else if esc == LOWER_U {
            var hex: Text := [];
            ghost var start := i;
            for k := 0 to 4
              invariant Valid() && i == start + k
              invariant hex ==
                        if start >= |text| then [] else text[start..if start + k <= |text| then start + k else |text|]
            {
              var d := Advance();
              if d != END { hex := hex + [d]; }
            }
            assert hex == FourUnits(text, start);
            out := out + FromHexEscape(hex);
          } else if esc != END { out := out + [esc]; }
        } else if ch == QUOTE {
          break;
        } else {
          out := out + [ch];
        }
      }
    }

    method SkipValue(pathPrefix: Text) returns (endless: bool)
      requires Valid()
      modifies this
      ensures Valid()
      ensures var r := ScanValue(text, inherited, old(i), old(index), pathPrefix);
              endless == r.Endless? && (!endless ==> r == Done(i, index))
      decreases Left(text, i), 1
    {
      SkipWhitespace();
      endless := false;
      var ch := PeekAt(text, i);
      if ch == OPEN_BRACE {
        endless := ScanObject(pathPrefix);
      } else if ch == OPEN_BRACKET {
        endless := ScanArray(pathPrefix);
      } else if ch == QUOTE {
        var _ := ReadStringToken();
      } else {
        ghost var start := i;
        while i < |text|
          invariant Valid() && start <= i && index == old(index)
          invariant TokenEnd(text, i) == TokenEnd(text, start)
          decreases Left(text, i)
        {
          var n := PeekAt(text, i);
          if n == COMMA || n == CLOSE_BRACE || n == CLOSE_BRACKET || IsBlank(n) { break; }
          var _ := Advance();
        }
      }
    }

    method ScanArray(pathPrefix: Text) returns (endless: bool)
      requires Valid() && i < |text|
      modifies this
      ensures Valid()
      ensures var r := ScanElems(text, inherited, old(i) + 1, old(index), pathPrefix);
              endless == r.Endless? && (!endless ==> r == Done(i, index))
      decreases Left(text, i), 0
    {
      hide ScanValue, BlanksEnd, PositionAt;
      var _ := Advance();
      while true
        invariant Valid() && old(i) < i
        invariant ScanElems(text, inherited, i, index, pathPrefix) ==
                  ScanElems(text, inherited, old(i) + 1, old(index), pathPrefix)
        decreases Left(text, i)
      {
        SkipWhitespace();
        var ch := PeekAt(text, i);
        if ch == CLOSE_BRACKET || ch == END {
          if ch == CLOSE_BRACKET { var _ := Advance(); }
          return false;
        }
        if ch == COMMA {
          var _ := Advance();
          continue;
        }
        if ch == CLOSE_BRACE {
          // This round would leave cursor and index as they are: see ElementRoundProgress.
          return true;
        }
        endless := SkipValue(pathPrefix);
        if endless { return; }
      }
    }

    method ScanObject(pathPrefix: Text) returns (endless: bool)
      requires Valid() && i < |text|
      modifies this
      ensures Valid()
      ensures var r := ScanMembers(text, inherited, old(i) + 1, old(index), pathPrefix);
              endless == r.Endless? && (!endless ==> r == Done(i, index))
      decreases Left(text, i), 0
    {
      hide ReadFrom, ScanValue, PathOf, Note, BlanksEnd, PositionAt;
      var _ := Advance();
      while true
        invariant Valid() && old(i) < i
        invariant ScanMembers(text, inherited, i, index, pathPrefix) ==
                  ScanMembers(text, inherited, old(i) + 1, old(index), pathPrefix)
        decreases Left(text, i)
      {
        SkipWhitespace();
        var ch := PeekAt(text, i);
        if ch == CLOSE_BRACE || ch == END {
          if ch == CLOSE_BRACE { var _ := Advance(); }
          return false;
        }
        if ch == COMMA {
          var _ := Advance();
          continue;
        }
        if ch != QUOTE {
          var _ := Advance();
          continue;
        }
        var keyLine, keyCol := line, col;
        var key := ReadStringToken();
        var path := PathOf(pathPrefix, key);
        index := Note(index, inherited, path, Position(keyLine, keyCol));
        SkipWhitespace();
        if PeekAt(text, i) == COLON { var _ := Advance(); }
        endless := SkipValue(path);
        if endless { return; }
      }
    }
  }

  /** The entry point. None stands for a scan that never returns. */
  method BuildPositionIndex(text: Text, inherited: set<Text>) returns (r: Option<Index>)
    ensures r == Build(text, inherited)
  {
    var c := new Scanner(text, inherited);
    c.SkipWhitespace();
    var endless := false;
    var ch := PeekAt(text, c.i);
    if ch == OPEN_BRACE {
      endless := c.ScanObject([]);
    } else if ch == OPEN_BRACKET {
      endless := c.ScanArray([]);
    }
    r := if endless then None else Some(c.index);
  }
}

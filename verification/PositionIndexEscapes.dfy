/**
 What the escapes of a key denote, against a printer of their own: the digits of a unit
 in either case, and the escape letters of RFC 8259, section 7.
 */
module PositionIndexEscapes {
  import opened Texts
  import opened JsonSyntax
  import opened PositionIndex

  // ---- Printing a unit --------------------------------------------------------

  /** The digits 0 to 9 and a to f, or A to F. */
  function DigitUnit(d: nat, upper: bool): Unit
    requires d < 16
  {
    if d < 10 then '0' as int + d else (if upper then 'A' else 'a') as int + (d - 10)
  }

  /** Four hex digits, each in the case asked for. */
  function HexText(u: Unit, case0: bool, case1: bool, case2: bool, case3: bool): Text {
    [DigitUnit(u / 0x1000, case0), DigitUnit(u / 0x100 % 0x10, case1),
     DigitUnit(u / 0x10 % 0x10, case2), DigitUnit(u % 0x10, case3)]
  }

  lemma DigitIsRead(d: nat, upper: bool)
    requires d < 16
    ensures IsHexDigit(DigitUnit(d, upper)) && HexDigit(DigitUnit(d, upper)) == d
  {
  }

  /** Nothing else is a digit. */
  lemma HexDigitIff(u: Unit)
    ensures IsHexDigit(u) <==> exists d: nat, upper :: d < 16 && DigitUnit(d, upper) == u
  {
    if 0x30 <= u <= 0x39 { assert DigitUnit(u - 0x30, true) == u; }
    if 0x41 <= u <= 0x46 { assert DigitUnit(u - 0x37, true) == u; }
    if 0x61 <= u <= 0x66 { assert DigitUnit(u - 0x57, false) == u; }
  }

  lemma DigitsOfUnit(u: Unit)
    ensures ((u / 0x1000 * 0x10 + u / 0x100 % 0x10) * 0x10 + u / 0x10 % 0x10) * 0x10 + u % 0x10 == u
  {
  }

  // ---- Reading it back --------------------------------------------------------

  /** The four digits printed for a unit denote it, in both readings. */
  lemma HexEscapeDenotes(u: Unit, case0: bool, case1: bool, case2: bool, case3: bool)
    ensures var h := HexText(u, case0, case1, case2, case3);
            |h| == 4 &&
            WellFormedPiece(Hex(h[0], h[1], h[2], h[3])) && PieceValue(Hex(h[0], h[1], h[2], h[3])) == u &&
            FromHexEscape(h) == [u]
  {
    hide DigitUnit, IsHexDigit, HexDigit;
    var d0, d1, d2, d3 := u / 0x1000, u / 0x100 % 0x10, u / 0x10 % 0x10, u % 0x10;
    DigitIsRead(d0, case0);
    DigitIsRead(d1, case1);
    DigitIsRead(d2, case2);
    DigitIsRead(d3, case3);
    DigitsOfUnit(u);
    FourDigitsRead(HexText(u, case0, case1, case2, case3));
  }

  lemma FourDigitsRead(h: Text)
    requires |h| == 4 && forall k :: 0 <= k < 4 ==> IsHexDigit(h[k])
    ensures FromHexEscape(h) == [HexValue(h[0], h[1], h[2], h[3])]
  {
    hide HexDigit;
    DigitsAreUnsigned(h);
    var h1, h2, h3 := h[..1], h[..2], h[..3];
    assert h[..3] == h3 && h3[..2] == h2 && h2[..1] == h1 && h1[..0] == [];
    assert HexPrefix(h1) == Some(HexDigit(h[0]));
    assert HexPrefix(h2) == Some(HexDigit(h[0]) * 16 + HexDigit(h[1]));
    assert HexPrefix(h3) == Some((HexDigit(h[0]) * 16 + HexDigit(h[1])) * 16 + HexDigit(h[2]));
    assert HexPrefix(h) == Some(HexValue(h[0], h[1], h[2], h[3]));
  }

  lemma DigitsAreUnsigned(h: Text)
    requires h != [] && forall k :: 0 <= k < |h| ==> IsHexDigit(h[k])
    ensures !IsJsSpace(h[0]) && h[0] != DASH && h[0] != PLUS
    ensures |h| >= 2 ==> h[1] != 0x78 && h[1] != 0x58
  {
    assert IsHexDigit(h[0]);
    if |h| >= 2 { assert IsHexDigit(h[1]); }
  }

  /** A key that is one hex escape is read as the unit it was printed for, on the text itself. */
  lemma HexEscapeRoundTrip(u: Unit, case0: bool, case1: bool, case2: bool, case3: bool)
    ensures ReadString([QUOTE, BACKSLASH, LOWER_U] + HexText(u, case0, case1, case2, case3) + [QUOTE], 0) ==
            Read([u], 8)
  {
    hide FromHexEscape, HexText;
    var h := HexText(u, case0, case1, case2, case3);
    HexEscapeDenotes(u, case0, case1, case2, case3);
    var text := [QUOTE, BACKSLASH, LOWER_U] + h + [QUOTE];
    assert FourUnits(text, 3) == h;
    assert ReadFrom(text, 1, []) == ReadFrom(text, 7, [] + [u]);
    assert [] + [u] == [u];
  }

  /** A key that is one other escape: only `n`, `r` and `t` stand for something else than themselves. */
  lemma EscapeRoundTrip(c: Unit)
    requires c != 'u' as int
    ensures ReadString([QUOTE, BACKSLASH, c, QUOTE], 0) ==
            Read([if c == 'n' as int then '\n' as int else if c == 'r' as int then '\r' as int
                  else if c == 't' as int then '\t' as int else c], 4)
  {
    var text := [QUOTE, BACKSLASH, c, QUOTE];
    assert ReadFrom(text, 1, []) == ReadFrom(text, 3, [] + EscapeText(c));
    assert ReadFrom(text, 3, EscapeText(c)) == Read(EscapeText(c), 4);
    assert [] + EscapeText(c) == EscapeText(c);
  }

  /** Section 7 reads backspace and form feed too, and no other letter is an escape. */
  lemma EscapeDenotes(c: Unit)
    ensures IsSimpleEscape(c) <==>
            c == '"' as int || c == '\\' as int || c == '/' as int || c == 'b' as int || c == 'f' as int ||
            c == 'n' as int || c == 'r' as int || c == 't' as int
    ensures PieceValue(Escape(c)) ==
            if c == 'b' as int then 0x08 else if c == 'f' as int then 0x0C
            else if c == 'n' as int then '\n' as int else if c == 'r' as int then '\r' as int
            else if c == 't' as int then '\t' as int else c
  {
  }

  // ---- Escapes that are not four digits ---------------------------------------

  /** The number some digits write in base 16. */
  function Positional(digits: Text): nat {
    if digits == [] then 0 else Positional(digits[..|digits| - 1]) * 16 + HexDigit(digits[|digits| - 1])
  }

  predicate AllDigits(t: Text) {
    forall k :: 0 <= k < |t| ==> IsHexDigit(t[k])
  }

  lemma {:induction false} HexPrefixReads(digits: Text, junk: Text)
    requires AllDigits(digits) && (junk != [] ==> !IsHexDigit(junk[0]))
    ensures HexPrefix(digits + junk) == if digits == [] then None else Some(Positional(digits))
    decreases |digits| + |junk|
  {
    hide IsHexDigit, HexDigit;
    var t := digits + junk;
    if junk != [] {
      assert t[|digits|] == junk[0];
      assert t[..|t| - 1] == digits + junk[..|junk| - 1];
      HexPrefixReads(digits, junk[..|junk| - 1]);
    } else if digits != [] {
      assert t == digits;
      assert digits[..|digits| - 1] + [] == digits[..|digits| - 1];
      HexPrefixReads(digits[..|digits| - 1], []);
    } else {
      assert t == [];
    }
  }

  lemma {:induction false} TrimLeftOver(blanks: Text, t: Text)
    requires (forall k :: 0 <= k < |blanks| ==> IsJsSpace(blanks[k])) && (t != [] ==> !IsJsSpace(t[0]))
    ensures TrimLeft(blanks + t) == t
    decreases |blanks|
  {
    if blanks == [] {
      assert blanks + t == t;
    } else {
      assert (blanks + t)[1..] == blanks[1..] + t;
      TrimLeftOver(blanks[1..], t);
    }
  }

  /** `-`, `+` or nothing. */
  datatype Sign = Minus | NoSign | PlusSign

  function SignText(s: Sign): Text {
    if s == Minus then ['-' as int] else if s == PlusSign then ['+' as int] else []
  }

  /**
   `parseInt(hex, 16)`: blanks, a sign and a `0x` are passed over, the digits read, and
   whatever follows them ignored.
   */
  lemma ParseHexReads(blanks: Text, sign: Sign, prefix: Text, digits: Text, junk: Text)
    requires forall k :: 0 <= k < |blanks| ==> IsJsSpace(blanks[k])
    requires prefix == [] || prefix == ['0' as int, 'x' as int] || prefix == ['0' as int, 'X' as int]
    requires digits != [] && AllDigits(digits) && (junk != [] ==> !IsHexDigit(junk[0]))
    requires prefix == [] && digits == ['0' as int] && junk != [] ==> junk[0] != 'x' as int && junk[0] != 'X' as int
    ensures var n: int := Positional(digits);
            ParseHex(blanks + (SignText(sign) + (prefix + (digits + junk)))) == Some(if sign == Minus then -n else n)
  {
    hide IsJsSpace, IsHexDigit, HexPrefix, TrimLeft, Positional, HexDigit;
    var number := prefix + (digits + junk);
    NumberStart(digits);
    assert number[0] == if prefix == [] then digits[0] else '0' as int;
    TrimLeftOver(blanks, SignText(sign) + number);
    assert SignText(sign) == [] ==> SignText(sign) + number == number;
    assert SignText(sign) != [] ==> (SignText(sign) + number)[1..] == number;
    HexPrefixReads(digits, junk);
    if prefix != [] {
      assert number[2..] == digits + junk;
    } else {
      assert number == digits + junk;
      if |number| >= 2 { assert number[1] == if |digits| >= 2 then digits[1] else junk[0]; }
      if |digits| == 1 { assert digits == [digits[0]]; }
    }
  }

  /** A digit is no blank, sign or `x`, and neither are the signs blanks. */
  lemma NumberStart(digits: Text)
    requires AllDigits(digits)
    ensures forall k :: 0 <= k < |digits| ==>
              !IsJsSpace(digits[k]) && digits[k] != DASH && digits[k] != PLUS && digits[k] != 0x78 && digits[k] != 0x58
    ensures !IsJsSpace(DASH) && !IsJsSpace(PLUS) && !IsJsSpace('0' as int)
  {
  }
}

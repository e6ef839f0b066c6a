/**
 The comment stripper of scripts/gate-s0.ts: a regular expression removes block
 comments, then one pass with an index and an open quote removes line comments.
 */
module StripComments {
  import opened Texts

  const STAR: Unit := 0x2A
  const APOSTROPHE: Unit := 0x27
  const BACKTICK: Unit := 0x60

  predicate IsQuote(u: Unit) {
    u == QUOTE || u == APOSTROPHE || u == BACKTICK
  }

  predicate Starts(t: Text, a: Unit, b: Unit) {
    |t| >= 2 && t[0] == a && t[1] == b
  }

  /** The text after the first star-slash, if there is one. */
  function AfterClose(t: Text): (r: Option<Text>)
    ensures r.Some? ==> |r.value| < |t|
  {
    if t == [] then None else if Starts(t, STAR, SLASH) then Some(t[2..]) else AfterClose(t[1..])
  }

  /** `src.replace(block, "")`: leftmost, shortest, not rescanned; an unclosed opener stays. */
  function StripBlocks(t: Text): Text
    decreases |t|
  {
    if t == [] then []
    else if Starts(t, SLASH, STAR) && AfterClose(t[2..]).Some? then StripBlocks(AfterClose(t[2..]).value)
    else [t[0]] + StripBlocks(t[1..])
  }

  /** What follows the newline that ends a comment. */
  function AfterLine(t: Text): (r: Text)
    ensures |r| <= |t| && (t != [] ==> |r| < |t|)
  {
    if t == [] then [] else if t[0] == NEWLINE then t[1..] else AfterLine(t[1..])
  }

  function StripLines(quote: Option<Unit>, t: Text): Text
    decreases |t|
  {
    if t == [] then []
    else if quote.Some? then
      if t[0] == BACKSLASH then
        if |t| == 1 then t else [t[0], t[1]] + StripLines(quote, t[2..])
      else [t[0]] + StripLines(if t[0] == quote.value then None else quote, t[1..])
    else if IsQuote(t[0]) then [t[0]] + StripLines(Some(t[0]), t[1..])
    else if Starts(t, SLASH, SLASH) then [NEWLINE] + StripLines(None, AfterLine(t))
    else [t[0]] + StripLines(None, t[1..])
  }

  function Stripped(src: Text): Text {
    StripLines(None, StripBlocks(src))
  }

  /** The open quote after an ordinary unit. */
  function Opens(quote: Option<Unit>, u: Unit): Option<Unit> {
    if quote.Some? then (if u == quote.value then None else quote)
    else if IsQuote(u) then Some(u) else None
  }

  lemma StripOne(quote: Option<Unit>, t: Text)
    requires t != [] && !(quote.Some? && t[0] == BACKSLASH) && !(quote == None && Starts(t, SLASH, SLASH))
    ensures StripLines(quote, t) == [t[0]] + StripLines(Opens(quote, t[0]), t[1..])
  {
  }

  lemma StripCommentAt(t: Text)
    requires Starts(t, SLASH, SLASH)
    ensures StripLines(None, t) == [NEWLINE] + StripLines(None, AfterLine(t))
  {
  }

  lemma StripEscape(quote: Option<Unit>, t: Text)
    requires quote.Some? && t != [] && t[0] == BACKSLASH
    ensures StripLines(quote, t) == if |t| == 1 then t else [t[0]] + ([t[1]] + StripLines(quote, t[2..]))
  {
  }

  lemma Regroup(out: Text, c: Text, rest: Text)
    ensures out + (c + rest) == (out + c) + rest
  {
  }

  /** `t.slice(i)`; an escape at the end of the text steps past it. */
  function From(t: Text, i: nat): Text {
    if i <= |t| then t[i..] else []
  }

  method Strip(src: Text) returns (out: Text)
    ensures out == Stripped(src)
  {
    hide StripLines, StripBlocks, AfterLine;
    var noBlocks := StripBlocks(src);
    out := [];
    var quote: Option<Unit> := None;
    var i := 0;
    assert From(noBlocks, 0) == noBlocks;
    while i < |noBlocks|
      invariant i >= 0
      invariant Stripped(src) == out + StripLines(quote, From(noBlocks, i))
    {
      var c := noBlocks[i];
      ghost var left := From(noBlocks, i);
      assert left[1..] == From(noBlocks, i + 1);
      if quote.Some? {
        out := out + [c];
        if c == BACKSLASH {
          EscapeAt(noBlocks, i, quote);
          i := i + 1;
          Regroup(out, if i < |noBlocks| then [noBlocks[i]] else [], StripLines(quote, From(noBlocks, i + 1)));
          if i < |noBlocks| { out := out + [noBlocks[i]]; }
        } else {
          StripOne(quote, left);
          if c == quote.value { quote := None; }
        }
        i := i + 1;
      } else if IsQuote(c) {
        StripOne(quote, left);
        quote := Some(c);
        out := out + [c];
        i := i + 1;
      } else if c == SLASH && i + 1 < |noBlocks| && noBlocks[i + 1] == SLASH {
        StripCommentAt(left);
        i := SkipLine(noBlocks, i);
        out := out + [NEWLINE];
      } else {
        StripOne(quote, left);
        out := out + [c];
        i := i + 1;
      }
    }
    NothingLeft(quote);
    assert From(noBlocks, i) == [];
    assert out + [] == out;
  }

  lemma EscapeAt(t: Text, i: nat, quote: Option<Unit>)
    requires quote.Some? && i < |t| && t[i] == BACKSLASH
    ensures StripLines(quote, From(t, i)) ==
            [t[i]] + ((if i + 1 < |t| then [t[i + 1]] else []) + StripLines(quote, From(t, i + 2)))
  {
    StripEscape(quote, t[i..]);
    if i + 1 < |t| {
      assert t[i..][2..] == From(t, i + 2);
    } else {
      NothingLeft(quote);
      assert From(t, i + 2) == [];
      assert t[i..] == [t[i]] + ([] + []);
    }
  }

  lemma NothingLeft(quote: Option<Unit>)
    ensures StripLines(quote, []) == []
  {
  }

  /** The inner loop, with the step past the newline. */
  method SkipLine(t: Text, start: nat) returns (i: nat)
    requires start < |t|
    ensures start < i <= |t| && t[i..] == AfterLine(t[start..])
  {
    i := start;
    while i < |t| && t[i] != NEWLINE
      invariant start <= i <= |t|
      invariant AfterLine(t[start..]) == AfterLine(t[i..])
    {
      i := i + 1;
    }
    i := if i < |t| then i + 1 else i;
  }

  // ---- Lexemes --------------------------------------------------------------

  datatype Bit = Raw(u: Unit) | Escaped(u: Unit)

  datatype Lexeme = Plain(u: Unit) | Quoted(quote: Unit, bits: seq<Bit>) | Comment(body: Text)

  /** How a text can break off: cleanly, in a comment, in a string, or after a string's backslash. */
  datatype Ending = Clean | OpenComment(body: Text) | OpenString(quote: Unit, bits: seq<Bit>, backslash: bool)

  predicate BitsAllowed(quote: Unit, bits: seq<Bit>) {
    forall k :: 0 <= k < |bits| ==> bits[k].Raw? ==> bits[k].u != quote && bits[k].u != BACKSLASH
  }

  function BitText(b: Bit): Text {
    if b.Raw? then [b.u] else [BACKSLASH, b.u]
  }

  function BitsText(bits: seq<Bit>): Text {
    if bits == [] then [] else BitText(bits[0]) + BitsText(bits[1..])
  }

  function LexemeText(l: Lexeme): Text {
    match l
    case Plain(u) => [u]
    case Quoted(q, bits) => [q] + BitsText(bits) + [q]
    case Comment(body) => [SLASH, SLASH] + body + [NEWLINE]
  }

  function EndingText(e: Ending): Text {
    match e
    case Clean => []
    case OpenComment(body) => [SLASH, SLASH] + body
    case OpenString(q, bits, backslash) => [q] + BitsText(bits) + (if backslash then [BACKSLASH] else [])
  }

  function Print(ls: seq<Lexeme>, e: Ending): Text {
    if ls == [] then EndingText(e) else LexemeText(ls[0]) + Print(ls[1..], e)
  }

  predicate LexemeAllowed(l: Lexeme, rest: Text) {
    match l
    case Plain(u) => !IsQuote(u) && !Starts([u] + rest, SLASH, SLASH)
    case Quoted(q, bits) => IsQuote(q) && BitsAllowed(q, bits)
    case Comment(body) => NEWLINE !in body
  }

  predicate EndingAllowed(e: Ending) {
    match e
    case Clean => true
    case OpenComment(body) => NEWLINE !in body
    case OpenString(q, bits, _) => IsQuote(q) && BitsAllowed(q, bits)
  }

  predicate Allowed(ls: seq<Lexeme>, e: Ending) {
    if ls == [] then EndingAllowed(e) else LexemeAllowed(ls[0], Print(ls[1..], e)) && Allowed(ls[1..], e)
  }

  /** Every comment, closed by a newline or by the end of the text, leaves one newline; all else stays. */
  function WithoutComments(ls: seq<Lexeme>, e: Ending): Text {
    if ls == [] then (if e.OpenComment? then [NEWLINE] else EndingText(e))
    else (if ls[0].Comment? then [NEWLINE] else LexemeText(ls[0])) + WithoutComments(ls[1..], e)
  }

  lemma {:induction false} StripBits(q: Unit, bits: seq<Bit>, rest: Text)
    requires q != BACKSLASH && BitsAllowed(q, bits)
    ensures StripLines(Some(q), BitsText(bits) + rest) == BitsText(bits) + StripLines(Some(q), rest)
    decreases |bits|
  {
    hide StripLines;
    if bits == [] {
      assert BitsText(bits) + rest == rest;
    } else {
      var more := BitsText(bits[1..]) + rest;
      StripBits(q, bits[1..], rest);
      StripBit(q, bits[0], more);
      assert BitsText(bits) + rest == BitText(bits[0]) + more;
    }
  }

  lemma StripBit(q: Unit, b: Bit, rest: Text)
    requires q != BACKSLASH && (b.Raw? ==> b.u != q && b.u != BACKSLASH)
    ensures StripLines(Some(q), BitText(b) + rest) == BitText(b) + StripLines(Some(q), rest)
  {
    var t := BitText(b) + rest;
    assert t[|BitText(b)|..] == rest;
  }

  lemma StripOpen(q: Unit, rest: Text)
    requires IsQuote(q)
    ensures StripLines(None, [q] + rest) == [q] + StripLines(Some(q), rest)
  {
    assert ([q] + rest)[1..] == rest;
  }

  lemma StripClose(q: Unit, rest: Text)
    requires q != BACKSLASH
    ensures StripLines(Some(q), [q] + rest) == [q] + StripLines(None, rest)
  {
    assert ([q] + rest)[1..] == rest;
  }

  lemma StripPlain(u: Unit, rest: Text)
    requires !IsQuote(u) && !Starts([u] + rest, SLASH, SLASH)
    ensures StripLines(None, [u] + rest) == [u] + StripLines(None, rest)
  {
    assert ([u] + rest)[1..] == rest;
  }

  lemma {:induction false} SkipBody(body: Text, rest: Text)
    requires NEWLINE !in body
    ensures AfterLine(body + [NEWLINE] + rest) == rest && AfterLine(body) == []
  {
    if body == [] {
      assert (body + [NEWLINE] + rest)[1..] == rest;
    } else {
      SkipBody(body[1..], rest);
      assert (body + [NEWLINE] + rest)[1..] == body[1..] + [NEWLINE] + rest;
    }
  }

  lemma StripComment(body: Text, rest: Text)
    requires NEWLINE !in body
    ensures StripLines(None, [SLASH, SLASH] + body + [NEWLINE] + rest) == [NEWLINE] + StripLines(None, rest)
    ensures StripLines(None, [SLASH, SLASH] + body) == [NEWLINE]
  {
    SkipBody([SLASH, SLASH] + body, rest);
  }

  lemma StripQuoted(q: Unit, bits: seq<Bit>, rest: Text)
    requires IsQuote(q) && BitsAllowed(q, bits)
    ensures StripLines(None, [q] + BitsText(bits) + [q] + rest) == [q] + BitsText(bits) + [q] + StripLines(None, rest)
  {
    hide StripLines, BitsText;
    var text := BitsText(bits);
    assert [q] + text + [q] + rest == [q] + (text + ([q] + rest));
    StripOpen(q, text + ([q] + rest));
    StripBits(q, bits, [q] + rest);
    StripClose(q, rest);
    assert [q] + (text + ([q] + StripLines(None, rest))) == [q] + text + [q] + StripLines(None, rest);
  }

  lemma StripLexeme(l: Lexeme, rest: Text)
    requires LexemeAllowed(l, rest)
    ensures StripLines(None, LexemeText(l) + rest) ==
            (if l.Comment? then [NEWLINE] else LexemeText(l)) + StripLines(None, rest)
  {
    hide StripLines, BitsText;
    match l
    case Plain(u) => StripPlain(u, rest);
    case Quoted(q, bits) => StripQuoted(q, bits, rest);
    case Comment(body) => StripComment(body, rest);
  }

  lemma StripEnding(e: Ending)
    requires EndingAllowed(e)
    ensures StripLines(None, EndingText(e)) == if e.OpenComment? then [NEWLINE] else EndingText(e)
  {
    match e
    case Clean =>
    case OpenComment(body) => StripComment(body, []);
    case OpenString(q, bits, backslash) =>
      var tail := if backslash then [BACKSLASH] else [];
      assert EndingText(e) == [q] + (BitsText(bits) + tail);
      StripOpen(q, BitsText(bits) + tail);
      StripBits(q, bits, tail);
  }

  /** String literals stay verbatim and exactly the line comments go, each leaving its newline. */
  lemma {:induction false} StripsExactlyLineComments(ls: seq<Lexeme>, e: Ending)
    requires Allowed(ls, e)
    ensures StripLines(None, Print(ls, e)) == WithoutComments(ls, e)
    decreases |ls|
  {
    hide StripLines, LexemeAllowed, LexemeText, EndingText;
    if ls == [] {
      StripEnding(e);
    } else {
      StripsExactlyLineComments(ls[1..], e);
      StripLexeme(ls[0], Print(ls[1..], e));
    }
  }

  // ---- Every text has lexemes -------------------------------------------------

  lemma {:induction false} ReadComment(t: Text) returns (body: Text, closed: bool, rest: Text)
    ensures NEWLINE !in body && t == if closed then body + [NEWLINE] + rest else body
    ensures |rest| <= |t| && (closed ==> |rest| < |t|)
  {
    if t == [] {
      body, closed, rest := [], false, [];
    } else if t[0] == NEWLINE {
      body, closed, rest := [], true, t[1..];
    } else {
      body, closed, rest := ReadComment(t[1..]);
      assert t == [t[0]] + t[1..];
      body := [t[0]] + body;
    }
  }

  lemma {:induction false} ReadBits(q: Unit, t: Text)
    returns (bits: seq<Bit>, closed: bool, backslash: bool, rest: Text)
    requires q != BACKSLASH
    ensures BitsAllowed(q, bits) && !(closed && backslash)
    ensures t == if closed then BitsText(bits) + [q] + rest
              else BitsText(bits) + (if backslash then [BACKSLASH] else [])
    ensures closed ==> |rest| < |t|
    decreases |t|
  {
    if t == [] {
      bits, closed, backslash, rest := [], false, false, [];
    } else if t[0] == q {
      bits, closed, backslash, rest := [], true, false, t[1..];
    } else if t == [BACKSLASH] {
      bits, closed, backslash, rest := [], false, true, [];
    } else {
      var first := if t[0] == BACKSLASH then Escaped(t[1]) else Raw(t[0]);
      var used := |BitText(first)|;
      bits, closed, backslash, rest := ReadBits(q, t[used..]);
      assert t == BitText(first) + t[used..];
      BitsCons(first, bits);
      bits := [first] + bits;
    }
  }

  lemma BitsCons(b: Bit, bits: seq<Bit>)
    ensures BitsText([b] + bits) == BitText(b) + BitsText(bits)
  {
    assert ([b] + bits)[1..] == bits;
  }

  lemma PrintCons(l: Lexeme, ls: seq<Lexeme>, e: Ending)
    requires LexemeAllowed(l, Print(ls, e)) && Allowed(ls, e)
    ensures Allowed([l] + ls, e) && Print([l] + ls, e) == LexemeText(l) + Print(ls, e)
  {
    assert ([l] + ls)[1..] == ls;
  }

  lemma TextOfQuoted(t: Text, bits: seq<Bit>, rest: Text)
    requires t != [] && t[1..] == BitsText(bits) + [t[0]] + rest
    ensures t == LexemeText(Quoted(t[0], bits)) + rest
  {
    hide BitsText;
    assert t == [t[0]] + t[1..];
  }

  lemma TextOfOpenString(t: Text, bits: seq<Bit>, backslash: bool)
    requires t != [] && t[1..] == BitsText(bits) + (if backslash then [BACKSLASH] else [])
    ensures t == EndingText(OpenString(t[0], bits, backslash))
  {
    hide BitsText;
    assert t == [t[0]] + t[1..];
  }

  lemma TextOfComment(t: Text, body: Text, closed: bool, rest: Text)
    requires Starts(t, SLASH, SLASH) && t[2..] == if closed then body + [NEWLINE] + rest else body
    ensures closed ==> t == LexemeText(Comment(body)) + rest
    ensures !closed ==> t == EndingText(OpenComment(body))
  {
    assert t == [SLASH, SLASH] + t[2..];
  }

  /** So the theorem speaks about every text. */
  lemma {:induction false} EveryTextHasLexemes(t: Text) returns (ls: seq<Lexeme>, e: Ending)
    ensures Allowed(ls, e) && Print(ls, e) == t
    decreases |t|
  {
    hide BitsText, BitsAllowed, LexemeText, EndingText;
    if t == [] {
      ls, e := [], Clean;
      CleanIsEmpty();
    } else if IsQuote(t[0]) {
      var bits, closed, backslash, rest := ReadBits(t[0], t[1..]);
      if closed {
        ls, e := EveryTextHasLexemes(rest);
        PrintCons(Quoted(t[0], bits), ls, e);
        TextOfQuoted(t, bits, rest);
        ls := [Quoted(t[0], bits)] + ls;
      } else {
        ls, e := [], OpenString(t[0], bits, backslash);
        TextOfOpenString(t, bits, backslash);
      }
    } else if Starts(t, SLASH, SLASH) {
      var body, closed, rest := ReadComment(t[2..]);
      TextOfComment(t, body, closed, rest);
      if closed {
        ls, e := EveryTextHasLexemes(rest);
        PrintCons(Comment(body), ls, e);
        ls := [Comment(body)] + ls;
      } else {
        ls, e := [], OpenComment(body);
      }
    } else {
      ls, e := EveryTextHasLexemes(t[1..]);
      assert t == [t[0]] + t[1..];
      PrintCons(Plain(t[0]), ls, e);
      TextOfPlain(t[0]);
      ls := [Plain(t[0])] + ls;
    }
  }

  lemma CleanIsEmpty()
    ensures EndingText(Clean) == []
  {
  }

  lemma TextOfPlain(u: Unit)
    ensures LexemeText(Plain(u)) == [u]
  {
  }

  // ---- Idempotence ----------------------------------------------------------

  /** No opener has a closer after it, so the regular expression matches nowhere. */
  predicate BlockFree(t: Text) {
    t == [] || (!(Starts(t, SLASH, STAR) && AfterClose(t[2..]).Some?) && BlockFree(t[1..]))
  }

  ghost predicate PairAt(t: Text, i: int, a: Unit, b: Unit) {
    0 <= i < |t| - 1 && t[i] == a && t[i + 1] == b
  }

  lemma {:induction false} AfterCloseMeans(t: Text)
    ensures AfterClose(t).Some? <==> exists j :: PairAt(t, j, STAR, SLASH)
  {
    if t != [] {
      AfterCloseMeans(t[1..]);
      if Starts(t, STAR, SLASH) {
        assert PairAt(t, 0, STAR, SLASH);
      } else if AfterClose(t[1..]).Some? {
        var j :| PairAt(t[1..], j, STAR, SLASH);
        assert PairAt(t, j + 1, STAR, SLASH);
      } else if j :| PairAt(t, j, STAR, SLASH) {
        assert j > 0 && PairAt(t[1..], j - 1, STAR, SLASH);
      }
    }
  }

  /** No slash-star has a star-slash anywhere after it. */
  lemma {:induction false} BlockFreeMeans(t: Text)
    ensures BlockFree(t) <==> !(exists i, j :: i + 2 <= j && PairAt(t, i, SLASH, STAR) && PairAt(t, j, STAR, SLASH))
  {
    if t != [] {
      BlockFreeMeans(t[1..]);
      if Starts(t, SLASH, STAR) && AfterClose(t[2..]).Some? {
        AfterCloseMeans(t[2..]);
        var j :| PairAt(t[2..], j, STAR, SLASH);
        assert PairAt(t, 0, SLASH, STAR) && PairAt(t, j + 2, STAR, SLASH);
      } else if !BlockFree(t[1..]) {
        var i, j :| i + 2 <= j && PairAt(t[1..], i, SLASH, STAR) && PairAt(t[1..], j, STAR, SLASH);
        assert PairAt(t, i + 1, SLASH, STAR) && PairAt(t, j + 1, STAR, SLASH);
      } else if i, j :| i + 2 <= j && PairAt(t, i, SLASH, STAR) && PairAt(t, j, STAR, SLASH) {
        AfterCloseMeans(t[2..]);
        if i == 0 {
          assert PairAt(t[2..], j - 2, STAR, SLASH);
        } else {
          assert PairAt(t[1..], i - 1, SLASH, STAR) && PairAt(t[1..], j - 1, STAR, SLASH);
        }
      }
    }
  }

  lemma {:induction false} BlockFreeStays(t: Text)
    requires BlockFree(t)
    ensures StripBlocks(t) == t
  {
    if t != [] {
      BlockFreeStays(t[1..]);
      assert t == [t[0]] + t[1..];
    }
  }

  /** The first unit out is the first unit in, or the newline of a comment. */
  lemma FirstOut(quote: Option<Unit>, t: Text)
    ensures t == [] <==> StripLines(quote, t) == []
    ensures t != [] ==> StripLines(quote, t)[0] == t[0] ||
                        (quote == None && Starts(t, SLASH, SLASH) && StripLines(quote, t)[0] == NEWLINE)
  {
  }

  lemma CloseStep(c: Unit, t: Text)
    ensures AfterClose([c] + t).Some? <==> (c == STAR && t != [] && t[0] == SLASH) || AfterClose(t).Some?
  {
    assert ([c] + t)[1..] == t;
  }

  lemma {:induction false} LineEndsInside(t: Text)
    ensures AfterClose(AfterLine(t)).Some? ==> AfterClose(t).Some?
    ensures BlockFree(t) ==> BlockFree(AfterLine(t))
  {
    if t != [] {
      if t[0] != NEWLINE { LineEndsInside(t[1..]); }
      CloseStep(t[0], t[1..]);
      assert t == [t[0]] + t[1..];
    }
  }

  /** Stripping lines leaves no closer that was not there. */
  lemma {:induction false} ClosersAreOld(quote: Option<Unit>, t: Text)
    requires quote.Some? ==> IsQuote(quote.value)
    ensures AfterClose(StripLines(quote, t)).Some? ==> AfterClose(t).Some?
    decreases |t|
  {
    hide AfterClose;
    if t != [] {
      assert t == [t[0]] + t[1..];
      CloseStep(t[0], t[1..]);
      if quote.Some? && t[0] == BACKSLASH {
        if |t| > 1 {
          var rest := StripLines(quote, t[2..]);
          assert t[1..] == [t[1]] + t[2..];
          assert [t[0], t[1]] + rest == [t[0]] + ([t[1]] + rest);
          CloseStep(t[1], t[2..]);
          CloseStep(t[0], [t[1]] + rest);
          CloseStep(t[1], rest);
          FirstOut(quote, t[2..]);
          ClosersAreOld(quote, t[2..]);
        }
      } else if quote == None && Starts(t, SLASH, SLASH) {
        LineEndsInside(t);
        CloseStep(NEWLINE, StripLines(None, AfterLine(t)));
        ClosersAreOld(None, AfterLine(t));
      } else {
        var next := Opens(quote, t[0]);
        CloseStep(t[0], StripLines(next, t[1..]));
        FirstOut(next, t[1..]);
        ClosersAreOld(next, t[1..]);
      }
    }
  }

  lemma BlockStep(c: Unit, t: Text)
    ensures BlockFree([c] + t) <==> !(c == SLASH && t != [] && t[0] == STAR && AfterClose(t[1..]).Some?) && BlockFree(t)
  {
    assert ([c] + t)[1..] == t;
    if t != [] { assert ([c] + t)[2..] == t[1..]; }
  }

  /** A slash-star left by the pass stands where one stood, with no more after it. */
  lemma OpenerIsOld(quote: Option<Unit>, t: Text)
    requires quote.Some? ==> IsQuote(quote.value)
    requires t != [] && t[0] == STAR && AfterClose(StripLines(quote, t)[1..]).Some?
    ensures AfterClose(t[1..]).Some?
  {
    hide AfterClose;
    StripOne(quote, t);
    assert StripLines(quote, t)[1..] == StripLines(Opens(quote, STAR), t[1..]);
    ClosersAreOld(Opens(quote, STAR), t[1..]);
  }

  lemma {:induction false} StaysBlockFree(quote: Option<Unit>, t: Text)
    requires BlockFree(t) && (quote.Some? ==> IsQuote(quote.value))
    ensures BlockFree(StripLines(quote, t))
    decreases |t|
  {
    hide AfterClose, BlockFree, StripLines;
    FirstOut(quote, t);
    if t != [] {
      assert t == [t[0]] + t[1..];
      BlockStep(t[0], t[1..]);
      if quote.Some? && t[0] == BACKSLASH {
        EscapeStaysBlockFree(quote, t);
        if |t| > 1 {
          assert t[1..] == [t[1]] + t[2..];
          BlockStep(t[1], t[2..]);
          StaysBlockFree(quote, t[2..]);
        }
      } else if quote == None && Starts(t, SLASH, SLASH) {
        LineEndsInside(t);
        StaysBlockFree(None, AfterLine(t));
        StripCommentAt(t);
        BlockStep(NEWLINE, StripLines(None, AfterLine(t)));
      } else {
        var next := Opens(quote, t[0]);
        StaysBlockFree(next, t[1..]);
        StripOne(quote, t);
        AfterUnitStaysBlockFree(next, t);
      }
    }
  }

  lemma AfterUnitStaysBlockFree(next: Option<Unit>, t: Text)
    requires t != [] && BlockFree(t) && BlockFree(StripLines(next, t[1..])) && (next.Some? ==> IsQuote(next.value))
    ensures BlockFree([t[0]] + StripLines(next, t[1..]))
  {
    hide AfterClose, BlockFree, StripLines;
    var rest := StripLines(next, t[1..]);
    assert t == [t[0]] + t[1..];
    BlockStep(t[0], t[1..]);
    BlockStep(t[0], rest);
    FirstOut(next, t[1..]);
    if rest != [] && rest[0] == STAR && AfterClose(rest[1..]).Some? { OpenerIsOld(next, t[1..]); }
  }

  lemma EscapeStaysBlockFree(quote: Option<Unit>, t: Text)
    requires quote.Some? && IsQuote(quote.value) && t != [] && t[0] == BACKSLASH && BlockFree(t)
    ensures |t| > 1 && BlockFree(StripLines(quote, t[2..])) ==> BlockFree(StripLines(quote, t))
    ensures |t| == 1 ==> BlockFree(StripLines(quote, t))
  {
    hide AfterClose, BlockFree;
    if |t| > 1 {
      var rest := StripLines(quote, t[2..]);
      assert t == [t[0]] + t[1..];
      BlockStep(t[0], t[1..]);
      assert StripLines(quote, t) == [t[0]] + ([t[1]] + rest);
      BlockStep(t[0], [t[1]] + rest);
      if BlockFree(rest) {
        assert t[1..][1..] == t[2..];
        AfterUnitStaysBlockFree(quote, t[1..]);
      }
    }
  }

  /** The line pass is idempotent on any text. */
  lemma {:induction false} LinePassIdempotent(quote: Option<Unit>, t: Text)
    ensures StripLines(quote, StripLines(quote, t)) == StripLines(quote, t)
    decreases |t|
  {
    hide StripLines;
    FirstOut(quote, t);
    if t != [] {
      if quote.Some? && t[0] == BACKSLASH {
        EscapeIdempotent(quote, t);
        if |t| > 1 { LinePassIdempotent(quote, t[2..]); }
      } else if quote == None && Starts(t, SLASH, SLASH) {
        StripCommentAt(t);
        LinePassIdempotent(None, AfterLine(t));
        StripPlain(NEWLINE, StripLines(None, AfterLine(t)));
      } else {
        var next := Opens(quote, t[0]);
        StripOne(quote, t);
        var rest := StripLines(next, t[1..]);
        LinePassIdempotent(next, t[1..]);
        FirstOut(next, t[1..]);
        assert ([t[0]] + rest)[1..] == rest;
        StripOne(quote, [t[0]] + rest);
      }
    }
  }

  lemma EscapeIdempotent(quote: Option<Unit>, t: Text)
    requires quote.Some? && t != [] && t[0] == BACKSLASH
    ensures |t| > 1 && StripLines(quote, StripLines(quote, t[2..])) == StripLines(quote, t[2..]) ==>
              StripLines(quote, StripLines(quote, t)) == StripLines(quote, t)
    ensures |t| == 1 ==> StripLines(quote, StripLines(quote, t)) == StripLines(quote, t)
  {
    if |t| > 1 {
      var rest := StripLines(quote, t[2..]);
      assert ([t[0], t[1]] + rest)[2..] == rest;
    }
  }

  lemma {:induction false} LinePassNeverGrows(quote: Option<Unit>, t: Text)
    ensures |StripLines(quote, t)| <= |t|
    decreases |t|
  {
    hide StripLines;
    if t == [] {
      NothingLeft(quote);
    } else if quote.Some? && t[0] == BACKSLASH {
      StripEscape(quote, t);
      if |t| > 1 { LinePassNeverGrows(quote, t[2..]); }
    } else if quote == None && Starts(t, SLASH, SLASH) {
      StripCommentAt(t);
      LinePassNeverGrows(None, AfterLine(t));
    } else {
      StripOne(quote, t);
      LinePassNeverGrows(Opens(quote, t[0]), t[1..]);
    }
  }

  lemma {:induction false} BlocksNeverGrow(t: Text)
    ensures |StripBlocks(t)| <= |t|
    decreases |t|
  {
    if t != [] {
      if Starts(t, SLASH, STAR) && AfterClose(t[2..]).Some? {
        BlocksNeverGrow(AfterClose(t[2..]).value);
      } else {
        BlocksNeverGrow(t[1..]);
      }
    }
  }

  lemma {:induction false} BlocksShorten(t: Text)
    requires !BlockFree(t)
    ensures |StripBlocks(t)| < |t|
    decreases |t|
  {
    if Starts(t, SLASH, STAR) && AfterClose(t[2..]).Some? {
      BlocksNeverGrow(AfterClose(t[2..]).value);
    } else {
      BlocksShorten(t[1..]);
    }
  }

  /** The regular expression leaves a text alone if and only if no opener has a closer after it. */
  lemma BlocksKeepIff(src: Text)
    ensures StripBlocks(src) == src <==> BlockFree(src)
  {
    hide StripBlocks, BlockFree;
    if BlockFree(src) { BlockFreeStays(src); } else { BlocksShorten(src); }
  }

  /** Stripping again changes nothing if and only if the first stripping left no block comment. */
  lemma StrippingTwiceIsOnceIff(src: Text)
    ensures Stripped(Stripped(src)) == Stripped(src) <==> BlockFree(Stripped(src))
  {
    hide StripLines, StripBlocks, BlockFree;
    var once := Stripped(src);
    LinePassIdempotent(None, StripBlocks(src));
    if BlockFree(once) {
      BlockFreeStays(once);
    } else {
      BlocksShorten(once);
      LinePassNeverGrows(None, StripBlocks(once));
    }
  }

  /**
   Read off before the call: with the block comments gone, is there a slash-star with a
   star-slash after it once the line comments, too, are blanked? That is a condition on
   the lexemes the line pass sees.
   */
  lemma TwiceIsOnceByLexemes(src: Text, ls: seq<Lexeme>, e: Ending)
    requires Allowed(ls, e) && Print(ls, e) == StripBlocks(src)
    ensures Stripped(Stripped(src)) == Stripped(src) <==> BlockFree(WithoutComments(ls, e))
  {
    hide *;
    StripsExactlyLineComments(ls, e);
    StrippedIs(src);
    StrippingTwiceIsOnceIff(src);
  }

  lemma StrippedIs(src: Text)
    ensures Stripped(src) == StripLines(None, StripBlocks(src))
  {
  }

  /** In particular, where removing block comments leaves none, as in a source without any. */
  lemma StrippingTwiceIsOnce(src: Text)
    requires BlockFree(StripBlocks(src))
    ensures Stripped(Stripped(src)) == Stripped(src)
  {
    hide StripLines, StripBlocks, BlockFree;
    StaysBlockFree(None, StripBlocks(src));
    StrippingTwiceIsOnceIff(src);
  }

  // ---- Both passes together ---------------------------------------------------

  /** On text without block comments strings stay verbatim and exactly the line comments go. */
  lemma StrippedKeepsAllButLineComments(ls: seq<Lexeme>, e: Ending)
    requires Allowed(ls, e) && BlockFree(Print(ls, e))
    ensures Stripped(Print(ls, e)) == WithoutComments(ls, e)
  {
    hide *;
    BlockFreeStays(Print(ls, e));
    StrippedIs(Print(ls, e));
    StripsExactlyLineComments(ls, e);
  }

  lemma BlocksKeep(u: Unit, rest: Text)
    requires !Starts([u] + rest, SLASH, STAR)
    ensures StripBlocks([u] + rest) == [u] + StripBlocks(rest)
  {
    assert ([u] + rest)[1..] == rest;
  }

  lemma {:induction false} FirstClose(body: Text, rest: Text)
    requires AfterClose(body) == None
    ensures AfterClose(body + ([STAR, SLASH] + rest)) == Some(rest)
    decreases |body|
  {
    var t := body + ([STAR, SLASH] + rest);
    if body == [] {
      assert t[2..] == rest;
    } else {
      assert t[1..] == body[1..] + ([STAR, SLASH] + rest);
      FirstClose(body[1..], rest);
    }
  }

  /** The block pass does not see strings: a literal that holds one block comment comes out empty. */
  lemma BlockInStringIsEmptied(q: Unit, body: Text)
    requires IsQuote(q) && AfterClose(body) == None
    ensures Stripped([q] + ([SLASH, STAR] + (body + ([STAR, SLASH] + [q])))) == [q, q]
  {
    var block := [SLASH, STAR] + (body + ([STAR, SLASH] + [q]));
    FirstClose(body, [q]);
    assert block[2..] == body + ([STAR, SLASH] + [q]);
    BlocksKeep(q, block);
    BlocksKeep(q, []);
    assert [q] + [] == [q] && [q] + [q] == [q, q];
    StripOpen(q, [q]);
    StripClose(q, []);
  }

  const JOINED: Text := [SLASH, STAR, 120, STAR, SLASH]

  lemma BlocksOfJoining()
    ensures StripBlocks([SLASH] + ([SLASH, STAR, STAR, SLASH] + JOINED[1..])) == JOINED
  {
    var inner := JOINED[1..];
    assert inner == [STAR] + ([120] + ([STAR] + ([SLASH] + [])));
    BlocksKeep(SLASH, []);
    BlocksKeep(STAR, [SLASH] + []);
    BlocksKeep(120, [STAR] + ([SLASH] + []));
    BlocksKeep(STAR, [120] + ([STAR] + ([SLASH] + [])));
    var block := [SLASH, STAR, STAR, SLASH] + inner;
    assert block[2..] == [STAR, SLASH] + inner && block[2..][2..] == inner;
    assert Starts(block, SLASH, STAR) && Starts(block[2..], STAR, SLASH) && AfterClose(block[2..]) == Some(inner);
    BlocksKeep(SLASH, block);
  }

  lemma LinesOfJoined()
    ensures StripLines(None, JOINED) == JOINED
  {
    assert JOINED == [SLASH] + ([STAR] + ([120] + ([STAR] + ([SLASH] + []))));
    StripPlain(SLASH, []);
    StripPlain(STAR, [SLASH] + []);
    StripPlain(120, [STAR] + ([SLASH] + []));
    StripPlain(STAR, [120] + ([STAR] + ([SLASH] + [])));
    StripPlain(SLASH, [STAR] + ([120] + ([STAR] + ([SLASH] + []))));
  }

  lemma BlocksOfJoined()
    ensures StripBlocks(JOINED) == []
  {
    assert JOINED[2..] == [120] + ([STAR, SLASH] + []);
    assert ([120] + ([STAR, SLASH] + []))[1..] == [STAR, SLASH];
    assert AfterClose([STAR, SLASH]) == Some([STAR, SLASH][2..]) && [STAR, SLASH][2..] == [];
    assert AfterClose(JOINED[2..]) == AfterClose(JOINED[2..][1..]);
    assert Starts(JOINED, SLASH, STAR) && AfterClose(JOINED[2..]) == Some([]);
  }

  /** Removing a block comment can join a new one: a slash, an empty block comment, then a star. */
  lemma RemovalCanOpenABlock()
    ensures Stripped([SLASH] + ([SLASH, STAR, STAR, SLASH] + JOINED[1..])) == JOINED && Stripped(JOINED) == []
  {
    hide StripBlocks, StripLines;
    BlocksOfJoining();
    LinesOfJoined();
    BlocksOfJoined();
    NothingLeft(None);
  }

  // ---- The block pass, cut by cut ----------------------------------------------

  lemma QuotesAre(u: Unit)
    ensures STAR == '*' as int
    ensures IsQuote(u) <==> u == '"' as int || u == '\'' as int || u == '`' as int
  {
  }

  /**
   The block pass on any text: what comes before the first opener stays, everything from
   it to the first closer goes, and the rest is passed in the same way. Where no opener
   has a closer after it, `BlocksKeepIff` says that all of it stays.
   */
  lemma {:induction false} BlockPassCuts(pre: Text, body: Text, post: Text)
    requires forall i :: !PairAt(pre, i, SLASH, STAR)
    requires forall i :: !PairAt(body, i, STAR, SLASH)
    ensures StripBlocks(pre + ([SLASH, STAR] + (body + ([STAR, SLASH] + post)))) == pre + StripBlocks(post)
    decreases |pre|
  {
    hide StripBlocks;
    var block := [SLASH, STAR] + (body + ([STAR, SLASH] + post));
    if pre == [] {
      AfterCloseMeans(body);
      FirstClose(body, post);
      assert block[2..] == body + ([STAR, SLASH] + post);
      assert pre + block == block && pre + StripBlocks(post) == StripBlocks(post);
      CutBlock(block, post);
    } else {
      var rest := pre[1..];
      forall i ensures !PairAt(rest, i, SLASH, STAR) { assert !PairAt(pre, i + 1, SLASH, STAR); }
      BlockPassCuts(rest, body, post);
      assert pre + block == [pre[0]] + (rest + block);
      assert !PairAt(pre, 0, SLASH, STAR);
      assert (rest + block)[0] == if rest == [] then SLASH else rest[0];
      BlocksKeep(pre[0], rest + block);
      assert [pre[0]] + (rest + StripBlocks(post)) == pre + StripBlocks(post);
    }
  }

  lemma CutBlock(block: Text, post: Text)
    requires Starts(block, SLASH, STAR) && AfterClose(block[2..]) == Some(post)
    ensures StripBlocks(block) == StripBlocks(post)
  {
  }
}

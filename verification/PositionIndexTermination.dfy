/**
 Exactly the texts on which the position scanner never returns: those on which a
 left-to-right token walk with a stack of open brackets meets `}` while the innermost
 open bracket is `[`. The walk knows nothing of paths, positions or the index.
 */
module PositionIndexTermination {
  import opened Texts
  import opened PositionIndex

  datatype Bracket = Square | Curly

  /** Where the walk goes on after the first token of a value. */
  datatype Entered = Entered(i: nat, open: seq<Bracket>)

  /** A value opens a bracket or is one token, empty where a separator stands in its place. */
  function Enter(text: Text, j: nat, open: seq<Bracket>): (e: Entered)
    ensures j <= e.i && (j < |text| && !EndsToken(text[j]) ==> j < e.i)
  {
    var ch := PeekAt(text, j);
    if ch == OPEN_BRACE then Entered(j + 1, open + [Curly])
    else if ch == OPEN_BRACKET then Entered(j + 1, open + [Square])
    else if ch == QUOTE then Entered(ReadString(text, j).next, open)
    else Entered(TokenEnd(text, j), open)
  }

  /** The start of the value after the key whose quote stands at `j`. */
  function AfterKey(text: Text, j: nat): (k: nat)
    ensures j < k
  {
    var colon := BlanksEnd(text, ReadString(text, j).next);
    BlanksEnd(text, if PeekAt(text, colon) == COLON then colon + 1 else colon)
  }

  /** The walk, from `i` with these brackets open, meets a closing brace in an array. */
  predicate MeetsBraceInArray(text: Text, i: nat, open: seq<Bracket>)
    decreases Left(text, i)
  {
    var j := BlanksEnd(text, i);
    if open == [] || j >= |text| then false
    else
      var outer, ch := open[..|open| - 1], text[j];
      match open[|open| - 1]
      case Square =>
        if ch == CLOSE_BRACKET then MeetsBraceInArray(text, j + 1, outer)
        else if ch == COMMA then MeetsBraceInArray(text, j + 1, open)
        else if ch == CLOSE_BRACE then true
        else
          var e := Enter(text, j, open);
          MeetsBraceInArray(text, e.i, e.open)
      case Curly =>
        if ch == CLOSE_BRACE then MeetsBraceInArray(text, j + 1, outer)
        else if ch != QUOTE then MeetsBraceInArray(text, j + 1, open)
        else
          var e := Enter(text, AfterKey(text, j), open);
          MeetsBraceInArray(text, e.i, e.open)
  }

  predicate NeverReturns(text: Text) {
    var j := BlanksEnd(text, 0);
    if PeekAt(text, j) == OPEN_BRACE then MeetsBraceInArray(text, j + 1, [Curly])
    else if PeekAt(text, j) == OPEN_BRACKET then MeetsBraceInArray(text, j + 1, [Square])
    else false
  }

  // ---- One round each -------------------------------------------------------

  /** The scan of a bracket's rest and the walk over it agree: both stuck, or both on at the same place. */
  ghost predicate Agree(text: Text, r: Scan, i: nat, inner: seq<Bracket>, open: seq<Bracket>) {
    if r.Endless? then MeetsBraceInArray(text, i, inner)
    else MeetsBraceInArray(text, i, inner) == MeetsBraceInArray(text, r.next, open)
  }

  lemma BlanksEndAgain(text: Text, i: nat)
    ensures BlanksEnd(text, BlanksEnd(text, i)) == BlanksEnd(text, i)
  {
  }

  lemma AtEnd(text: Text, i: nat, open: seq<Bracket>)
    requires BlanksEnd(text, i) >= |text|
    ensures !MeetsBraceInArray(text, i, open)
  {
  }

  lemma InSquare(text: Text, i: nat, open: seq<Bracket>)
    requires BlanksEnd(text, i) < |text|
    ensures var j, inner := BlanksEnd(text, i), open + [Square];
            MeetsBraceInArray(text, i, inner) ==
            if text[j] == CLOSE_BRACKET then MeetsBraceInArray(text, j + 1, open)
            else if text[j] == COMMA then MeetsBraceInArray(text, j + 1, inner)
            else if text[j] == CLOSE_BRACE then true
            else MeetsBraceInArray(text, Enter(text, j, inner).i, Enter(text, j, inner).open)
  {
    assert (open + [Square])[..|open|] == open;
  }

  lemma InCurly(text: Text, i: nat, open: seq<Bracket>)
    requires BlanksEnd(text, i) < |text|
    ensures var j, inner := BlanksEnd(text, i), open + [Curly];
            var e := Enter(text, AfterKey(text, j), inner);
            MeetsBraceInArray(text, i, inner) ==
            if text[j] == CLOSE_BRACE then MeetsBraceInArray(text, j + 1, open)
            else if text[j] != QUOTE then MeetsBraceInArray(text, j + 1, inner)
            else MeetsBraceInArray(text, e.i, e.open)
  {
    assert (open + [Curly])[..|open|] == open;
  }

  // ---- The three scans ------------------------------------------------------

  lemma {:induction false} ValueAgrees(text: Text, inherited: set<Text>, i: nat, index: Index, prefix: Text,
                                       open: seq<Bracket>)
    ensures var e := Enter(text, BlanksEnd(text, i), open);
            Agree(text, ScanValue(text, inherited, i, index, prefix), e.i, e.open, open)
    decreases Left(text, i), 1
  {
    hide MeetsBraceInArray;
    var j := BlanksEnd(text, i);
    var ch := PeekAt(text, j);
    if ch == OPEN_BRACE {
      MembersAgree(text, inherited, j + 1, index, prefix, open);
    } else if ch == OPEN_BRACKET {
      ElemsAgree(text, inherited, j + 1, index, prefix, open);
    }
  }

  lemma {:induction false} ElemsAgree(text: Text, inherited: set<Text>, i: nat, index: Index, prefix: Text,
                                      open: seq<Bracket>)
    ensures Agree(text, ScanElems(text, inherited, i, index, prefix), i, open + [Square], open)
    decreases Left(text, i), 2
  {
    hide MeetsBraceInArray, ScanValue, Enter;
    var j := BlanksEnd(text, i);
    if j >= |text| {
      AtEnd(text, i, open + [Square]);
      BlanksEndAgain(text, i);
      AtEnd(text, j, open);
    } else {
      InSquare(text, i, open);
      if text[j] == COMMA {
        ElemsAgree(text, inherited, j + 1, index, prefix, open);
      } else if text[j] != CLOSE_BRACKET && text[j] != CLOSE_BRACE {
        BlanksEndAgain(text, i);
        ValueAgrees(text, inherited, j, index, prefix, open + [Square]);
        var r := ScanValue(text, inherited, j, index, prefix);
        if r.Done? { ElemsAgree(text, inherited, r.next, r.index, prefix, open); }
      }
    }
  }

  lemma {:induction false} MembersAgree(text: Text, inherited: set<Text>, i: nat, index: Index, prefix: Text,
                                        open: seq<Bracket>)
    ensures Agree(text, ScanMembers(text, inherited, i, index, prefix), i, open + [Curly], open)
    decreases Left(text, i), 2
  {
    hide MeetsBraceInArray, ScanValue, Enter, ReadString, Note, PathOf, PositionAt;
    var j := BlanksEnd(text, i);
    if j >= |text| {
      AtEnd(text, i, open + [Curly]);
      BlanksEndAgain(text, i);
      AtEnd(text, j, open);
    } else {
      InCurly(text, i, open);
      if text[j] != CLOSE_BRACE && text[j] != QUOTE {
        MembersAgree(text, inherited, j + 1, index, prefix, open);
      } else if text[j] == QUOTE {
        var key := ReadString(text, j);
        var path := PathOf(prefix, key.value);
        var noted := Note(index, inherited, path, PositionAt(text, j));
        var colon := BlanksEnd(text, key.next);
        var start := if PeekAt(text, colon) == COLON then colon + 1 else colon;
        ValueAgrees(text, inherited, start, noted, path, open + [Curly]);
        var r := ScanValue(text, inherited, start, noted, path);
        if r.Done? { MembersAgree(text, inherited, r.next, r.index, prefix, open); }
      }
    }
  }

  lemma NothingOpen(text: Text, i: nat)
    ensures !MeetsBraceInArray(text, i, [])
  {
  }

  /** The scan of a text never returns if and only if its token walk meets a closing brace in an array. */
  lemma NeverReturnsIff(text: Text, inherited: set<Text>)
    ensures Build(text, inherited).None? <==> NeverReturns(text)
  {
    hide MeetsBraceInArray, ScanElems, ScanMembers;
    var j := BlanksEnd(text, 0);
    if PeekAt(text, j) == OPEN_BRACE {
      MembersAgree(text, inherited, j + 1, map[], [], []);
      assert [] + [Curly] == [Curly];
      var r := ScanMembers(text, inherited, j + 1, map[], []);
      if r.Done? { NothingOpen(text, r.next); }
    } else if PeekAt(text, j) == OPEN_BRACKET {
      ElemsAgree(text, inherited, j + 1, map[], [], []);
      assert [] + [Square] == [Square];
      var r := ScanElems(text, inherited, j + 1, map[], []);
      if r.Done? { NothingOpen(text, r.next); }
    }
  }
}

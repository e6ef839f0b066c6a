/**
 `rawDuplicateKeys` of scripts/preview-snapshot.ts: an iterative scan with an
 explicit stack of open objects and arrays. `Step` is one round of its loop on any
 text; `RawDuplicateKeys` is the loop itself.
 */
module DuplicateKeys {
  import opened Texts

  /** One open object (`keys` is Some) or array (`keys` is None). */
  datatype Frame = Frame(keys: Option<set<Text>>, pointer: Text)

  datatype State = State(i: nat, stack: seq<Frame>, pending: Option<Text>, dups: seq<Text>)

  const START := State(0, [], None, [])

  datatype Read = Read(value: Text, next: nat)

  /** The loop of `readString`: the raw spelling up to the closing quote. */
  function RawFrom(text: Text, i: nat, out: Text): (r: Read)
    ensures i <= r.next
    decreases Left(text, i)
  {
    if i >= |text| then Read(out, i)
    else if text[i] == BACKSLASH then
      var more := if i + 1 < |text| then [text[i], text[i + 1]] else [text[i]];
      RawFrom(text, i + 2, out + more)
    else if text[i] == QUOTE then Read(out, i + 1)
    else RawFrom(text, i + 1, out + [text[i]])
  }

  function RawString(text: Text, i: nat): (r: Read)
    ensures i < r.next
  {
    RawFrom(text, i + 1, [])
  }

  function SpacesEnd(text: Text, i: nat): (j: nat)
    ensures i <= j
    decreases Left(text, i)
  {
    if i < |text| && IsJsSpace(text[i]) then SpacesEnd(text, i + 1) else i
  }

  function Pointer(base: Text, key: Text): Text {
    base + [SLASH] + key
  }

  /** The pointer of the innermost open frame. */
  function Base(s: State): Text {
    if s.stack == [] then [] else s.stack[|s.stack| - 1].pointer
  }

  /** The pointer a value starting here would get. */
  function Here(s: State): Text {
    if s.pending.None? then Base(s) else Pointer(Base(s), s.pending.value)
  }

  function Open(s: State, keys: Option<set<Text>>): State {
    State(s.i + 1, s.stack + [Frame(keys, Here(s))], None, s.dups)
  }

  function Close(s: State): State {
    State(s.i + 1, if s.stack == [] then [] else s.stack[..|s.stack| - 1], None, s.dups)
  }

  /** A string that is a key of the innermost object. */
  function EnterKey(s: State, key: Text): State
    requires s.stack != [] && s.stack[|s.stack| - 1].keys.Some?
  {
    var top := |s.stack| - 1;
    var frame := s.stack[top];
    s.(dups := if key in frame.keys.value then s.dups + [Pointer(frame.pointer, key)] else s.dups,
       stack := s.stack[top := frame.(keys := Some(frame.keys.value + {key}))],
       pending := Some(key))
  }

  function StepString(text: Text, s: State): State {
    var r := RawString(text, s.i);
    var moved := s.(i := r.next);
    if PeekAt(text, SpacesEnd(text, r.next)) == COLON && s.stack != [] && s.stack[|s.stack| - 1].keys.Some?
    then EnterKey(moved, r.value)
    else moved
  }

  /** One round of the loop. */
  function Step(text: Text, s: State): (r: State)
    requires s.i < |text|
    ensures s.i < r.i
  {
    var ch := text[s.i];
    if ch == QUOTE then StepString(text, s)
    else if ch == OPEN_BRACE then Open(s, Some({}))
    else if ch == OPEN_BRACKET then Open(s, None)
    else if ch == CLOSE_BRACE || ch == CLOSE_BRACKET then Close(s)
    else if ch == COMMA then s.(i := s.i + 1, pending := None)
    else s.(i := s.i + 1)
  }

  function Run(text: Text, s: State): State
    decreases Left(text, s.i)
  {
    if s.i >= |text| then s else Run(text, Step(text, s))
  }

  /** The function under study, on any text. */
  method RawDuplicateKeys(json: Text) returns (sorted: seq<Text>)
    ensures sorted == SortTexts(Run(json, START).dups)
  {
    var dups: seq<Text> := [];
    var stack: seq<Frame> := [];
    var i: nat := 0;
    var pendingKey: Option<Text> := None;
    while i < |json|
      invariant Run(json, State(i, stack, pendingKey, dups)) == Run(json, START)
      decreases Left(json, i)
    {
      var ch := json[i];
      if ch == QUOTE {
        var value, next := ReadString(json, i);
        i := next;
        var j := i;
        while j < |json| && IsJsSpace(json[j])
          invariant i <= j && SpacesEnd(json, j) == SpacesEnd(json, i)
          decreases Left(json, j)
        {
          j := j + 1;
        }
        if PeekAt(json, j) == COLON && stack != [] && stack[|stack| - 1].keys.Some? {
          var frame := stack[|stack| - 1];
          if value in frame.keys.value { dups := dups + [Pointer(frame.pointer, value)]; }
          stack := stack[|stack| - 1 := frame.(keys := Some(frame.keys.value + {value}))];
          pendingKey := Some(value);
        }
        continue;
      }
      if ch == OPEN_BRACE || ch == OPEN_BRACKET {
        var base := if stack == [] then [] else stack[|stack| - 1].pointer;
        var keys: Option<set<Text>> := if ch == OPEN_BRACE then Some({}) else None;
        stack := stack + [Frame(keys, if pendingKey.None? then base else Pointer(base, pendingKey.value))];
        pendingKey := None;
        i := i + 1;
        continue;
      }
      if ch == CLOSE_BRACE || ch == CLOSE_BRACKET {
        stack := if stack == [] then [] else stack[..|stack| - 1];
        pendingKey := None;
        i := i + 1;
        continue;
      }
      if ch == COMMA { pendingKey := None; }
      i := i + 1;
    }
    sorted := SortTexts(dups);
  }

  method ReadString(json: Text, start: nat) returns (out: Text, i: nat)
    ensures Read(out, i) == RawString(json, start)
  {
    out, i := [], start + 1;
    while i < |json|
      invariant start < i && RawFrom(json, i, out) == RawString(json, start)
      decreases Left(json, i)
    {
      var ch := json[i];
      if ch == BACKSLASH {
        out := out + (if i + 1 < |json| then [ch, json[i + 1]] else [ch]);
        i := i + 2;
        continue;
      }
      if ch == QUOTE {
        i := i + 1;
        return;
      }
      out := out + [ch];
      i := i + 1;
    }
  }
}

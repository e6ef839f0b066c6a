/**
 The stdio server of packages/calllint-mcp/src/server.ts: requests cut out of decoded
 text chunks at newlines, decoded, negotiated, handled and answered in order.

 `JSON.parse` and the tool handlers are parameters; a handler may change session state
 and may throw. Chunks are text, after the stream's UTF-8 decoder.
 */
module StdioFraming {
  import opened Texts

  const PARSE := -32700
  const INVALID_REQUEST := -32600
  const METHOD_NOT_FOUND := -32601
  const INVALID_PARAMS := -32602
  const INTERNAL := -32603
  const UNSUPPORTED_PROTOCOL_VERSION := -32022

  /** The revision a request declares in `_meta`; a malformed declaration is unsupported. */
  datatype Declared = Undeclared | Legacy | Stateless | Unsupported

  datatype Method =
    Initialize | Initialized | Ping | Discover | ToolsList | ToolsCall(known: bool) |
    ResourcesList | TemplatesList | ResourcesRead(known: bool) | Other

  /** `id` is None when absent or null: a notification. */
  datatype Request = Request(id: Option<Text>, declared: Declared, name: Method, body: Text)

  datatype Json = NotJson | NullJson | Value(id: Option<Text>, isRequest: bool, request: Request)

  datatype Payload = Fixed(name: Method) | Contents(body: Text) | ToolResult(text: Text)

  datatype Response =
    | Failure(id: Option<Text>, code: int)
    | Success(id: Option<Text>, payload: Payload, resultType: bool, cacheHints: bool)

  datatype Handled<S> = Returned(state: S, reply: Option<Response>) | Raised(state: S)

  datatype ToolOutcome<S> = ToolReturned(state: S, text: Text) | ToolRaised(state: S)

  datatype Session<S> = Session(state: S, replies: seq<Response>)

  // ---- One request ----------------------------------------------------------

  predicate RemovedAtStateless(m: Method) {
    m == Initialize || m == Initialized || m == Ping
  }

  function HandleRequest<S>(s: S, r: Request, tools: (S, Text) -> ToolOutcome<S>): Handled<S> {
    if r.declared == Unsupported then
      Returned(s, if r.id == None then None else Some(Failure(r.id, UNSUPPORTED_PROTOCOL_VERSION)))
    else
      var stateless := r.declared == Stateless;
      if stateless && RemovedAtStateless(r.name) then
        Returned(s, if r.id == None then None else Some(Failure(r.id, METHOD_NOT_FOUND)))
      else
        match r.name
        case Initialize => Returned(s, Some(Success(r.id, Fixed(r.name), false, false)))
        case Discover => Returned(s, Some(Success(r.id, Fixed(r.name), true, true)))
        case Initialized => Returned(s, None)
        case Ping => Returned(s, Some(Success(r.id, Fixed(r.name), false, false)))
        case ToolsList => Returned(s, Some(Success(r.id, Fixed(r.name), stateless, stateless)))
        case ToolsCall(known) =>
          if r.id == None then Returned(s, None)
          else if !known then Returned(s, Some(Failure(r.id, INVALID_PARAMS)))
          else (
            match tools(s, r.body)
            case ToolReturned(next, text) => Returned(next, Some(Success(r.id, ToolResult(text), stateless, false)))
            case ToolRaised(next) => Raised(next)
          )
        case ResourcesList => Returned(s, Some(Success(r.id, Fixed(r.name), stateless, stateless)))
        case TemplatesList => Returned(s, Some(Success(r.id, Fixed(r.name), stateless, stateless)))
        case ResourcesRead(known) =>
          if r.id == None then Returned(s, None)
          else if !known then Returned(s, Some(Failure(r.id, INVALID_PARAMS)))
          else Returned(s, Some(Success(r.id, Contents(r.body), stateless, stateless)))
        case Other => Returned(s, if r.id == None then None else Some(Failure(r.id, METHOD_NOT_FOUND)))
  }

  /** The reply's revision: removed methods never succeed and `resultType` shows exactly at the stateless one. */
  lemma ServedAtOneRevision<S(!new)>(s: S, r: Request, tools: (S, Text) -> ToolOutcome<S>)
    requires HandleRequest(s, r, tools).Returned? && HandleRequest(s, r, tools).reply.Some?
    ensures var reply := HandleRequest(s, r, tools).reply.value;
            reply.id == r.id &&
            (reply.Success? ==>
              (r.declared == Stateless ==> !RemovedAtStateless(r.name)) &&
              (r.name != Discover ==> (reply.resultType <==> r.declared == Stateless)) &&
              (reply.cacheHints ==> reply.resultType && !r.name.ToolsCall?))
  {
  }

  predicate AnswersNotifications(m: Method) {
    m == Initialize || m == Ping || m == Discover || m == ToolsList || m == ResourcesList || m == TemplatesList
  }

  /**
   A request without an id should get no reply (section 4.1 of JSON-RPC 2.0). It gets one
   exactly when the revision is supported and the method's arm does not look at the id.
   */
  lemma NotificationAnsweredIff<S(!new)>(s: S, r: Request, tools: (S, Text) -> ToolOutcome<S>)
    requires r.id == None
    ensures HandleRequest(s, r, tools).Returned? && HandleRequest(s, r, tools).state == s
    ensures HandleRequest(s, r, tools).reply.Some? <==>
            r.declared != Unsupported && AnswersNotifications(r.name) &&
            !(r.declared == Stateless && RemovedAtStateless(r.name))
  {
  }

  // ---- One line -------------------------------------------------------------

  function TrimStart(t: Text): Text {
    if t != [] && IsJsSpace(t[0]) then TrimStart(t[1..]) else t
  }

  function TrimEnd(t: Text): Text {
    if t != [] && IsJsSpace(t[|t| - 1]) then TrimEnd(t[..|t| - 1]) else t
  }

  function Trim(t: Text): Text {
    TrimEnd(TrimStart(t))
  }

  datatype Decoded = Blank | ParseError(response: Response) | Decoded(request: Request)

  function DecodeLine(line: Text, parse: Text -> Json): Decoded {
    var trimmed := Trim(line);
    if trimmed == [] then Blank
    else
      match parse(trimmed)
      case NotJson => ParseError(Failure(None, PARSE))
      case NullJson => ParseError(Failure(None, PARSE))
      case Value(id, isRequest, request) =>
        if isRequest then Decoded(request) else ParseError(Failure(id, INVALID_REQUEST))
  }

  function HandleLine<S>(x: Session<S>, line: Text, parse: Text -> Json,
                         tools: (S, Text) -> ToolOutcome<S>): Session<S> {
    match DecodeLine(line, parse)
    case Blank => x
    case ParseError(response) => x.(replies := x.replies + [response])
    case Decoded(request) =>
      match HandleRequest(x.state, request, tools)
      case Returned(state, reply) =>
        Session(state, if reply.Some? then x.replies + [reply.value] else x.replies)
      case Raised(state) => Session(state, x.replies + [Failure(request.id, INTERNAL)])
  }

  function HandleLines<S>(x: Session<S>, lines: seq<Text>, parse: Text -> Json,
                          tools: (S, Text) -> ToolOutcome<S>): Session<S>
    decreases |lines|
  {
    if lines == [] then x else HandleLines(HandleLine(x, lines[0], parse, tools), lines[1..], parse, tools)
  }

  // ---- Cutting the text -----------------------------------------------------

  datatype Cut = Cut(lines: seq<Text>, rest: Text)

  /** `buffer.indexOf("\n")`. */
  function NewlineIn(t: Text): (i: Option<nat>)
    ensures i.Some? ==> i.value < |t| && t[i.value] == NEWLINE && NEWLINE !in t[..i.value]
    ensures i.None? ==> NEWLINE !in t
  {
    if t == [] then None
    else if t[0] == NEWLINE then Some(0)
    else var i := NewlineIn(t[1..]); if i.Some? then Some(i.value + 1) else None
  }

  function CutLines(t: Text): Cut
    decreases |t|
  {
    var nl := NewlineIn(t);
    if nl.None? then Cut([], t)
    else var more := CutLines(t[nl.value + 1..]); Cut([t[..nl.value]] + more.lines, more.rest)
  }

  function Joined(lines: seq<Text>): Text {
    if lines == [] then [] else lines[0] + [NEWLINE] + Joined(lines[1..])
  }

  lemma CutStep(t: Text, i: nat)
    requires NewlineIn(t) == Some(i)
    ensures CutLines(t) == Cut([t[..i]] + CutLines(t[i + 1..]).lines, CutLines(t[i + 1..]).rest)
  {
  }

  lemma CutNone(t: Text)
    requires NewlineIn(t) == None
    ensures CutLines(t) == Cut([], t)
  {
  }

  lemma JoinedStep(line: Text, lines: seq<Text>)
    ensures Joined([line] + lines) == line + [NEWLINE] + Joined(lines)
  {
    assert ([line] + lines)[1..] == lines;
  }

  /** The cut is lossless and at every newline. */
  lemma {:induction false} CutIsLossless(t: Text)
    ensures t == Joined(CutLines(t).lines) + CutLines(t).rest
    ensures NEWLINE !in CutLines(t).rest
    ensures forall k :: 0 <= k < |CutLines(t).lines| ==> NEWLINE !in CutLines(t).lines[k]
    decreases |t|
  {
    hide *;
    var nl := NewlineIn(t);
    if nl.None? {
      CutNone(t);
      JoinedEmpty();
    } else {
      var tail := t[nl.value + 1..];
      CutIsLossless(tail);
      CutStep(t, nl.value);
      JoinedStep(t[..nl.value], CutLines(tail).lines);
      var rest := Joined(CutLines(tail).lines) + CutLines(tail).rest;
      assert t == t[..nl.value] + [NEWLINE] + rest;
    }
  }

  lemma JoinedEmpty()
    ensures Joined([]) == []
  {
  }

  lemma {:induction false} NewlineAt(line: Text, tail: Text)
    requires NEWLINE !in line
    ensures NewlineIn(line + [NEWLINE] + tail) == Some(|line|)
  {
    var t := line + [NEWLINE] + tail;
    if line != [] {
      NewlineAt(line[1..], tail);
      assert t[1..] == line[1..] + [NEWLINE] + tail;
    }
  }

  lemma CutFirst(line: Text, tail: Text)
    requires NEWLINE !in line
    ensures CutLines(line + [NEWLINE] + tail) == Cut([line] + CutLines(tail).lines, CutLines(tail).rest)
  {
    var t := line + [NEWLINE] + tail;
    NewlineAt(line, tail);
    assert t[..|line|] == line && t[|line| + 1..] == tail;
  }

  /** Any lines, terminated by newlines, come back as they were, with what follows cut the same. */
  lemma {:induction false} CutOfJoined(lines: seq<Text>, tail: Text)
    requires forall k :: 0 <= k < |lines| ==> NEWLINE !in lines[k]
    ensures CutLines(Joined(lines) + tail) == Cut(lines + CutLines(tail).lines, CutLines(tail).rest)
    decreases |lines|
  {
    hide *;
    if lines == [] {
      JoinedEmpty();
      assert Joined(lines) + tail == tail;
    } else {
      var first, others := lines[0], lines[1..];
      CutOfJoined(others, tail);
      var more := Joined(others) + tail;
      assert [first] + others == lines;
      JoinedStep(first, others);
      assert Joined(lines) + tail == first + [NEWLINE] + more;
      CutFirst(first, more);
    }
  }

  /** Reading `a` and then `b` cuts the same lines as reading `a + b`. */
  lemma CutContinues(a: Text, b: Text)
    ensures CutLines(a + b).lines == CutLines(a).lines + CutLines(CutLines(a).rest + b).lines
    ensures CutLines(a + b).rest == CutLines(CutLines(a).rest + b).rest
  {
    hide CutLines, Joined;
    CutIsLossless(a);
    var done, rest := CutLines(a).lines, CutLines(a).rest;
    assert a + b == Joined(done) + (rest + b);
    CutOfJoined(done, rest + b);
  }

  lemma {:induction false} LinesContinue<S>(x: Session<S>, a: seq<Text>, b: seq<Text>,
                                            parse: Text -> Json, tools: (S, Text) -> ToolOutcome<S>)
    ensures HandleLines(x, a + b, parse, tools) == HandleLines(HandleLines(x, a, parse, tools), b, parse, tools)
    decreases |a|
  {
    if a == [] {
      assert a + b == b;
    } else {
      assert (a + b)[1..] == a[1..] + b;
      LinesContinue(HandleLine(x, a[0], parse, tools), a[1..], b, parse, tools);
    }
  }

  // ---- The server -----------------------------------------------------------

  class Server<S(!new)> {
    var buffer: Text
    var session: Session<S>
    const parse: Text -> Json
    const tools: (S, Text) -> ToolOutcome<S>

    constructor (s: S, parse: Text -> Json, tools: (S, Text) -> ToolOutcome<S>)
      ensures buffer == [] && session == Session(s, []) && this.parse == parse && this.tools == tools
    {
      buffer, session := [], Session(s, []);
      this.parse, this.tools := parse, tools;
    }

    /** The `data` handler: every newline now in the buffer ends a line, handled once and in order. */
    method OnData(chunk: Text)
      modifies this
      ensures buffer == CutLines(old(buffer) + chunk).rest
      ensures session == HandleLines(old(session), CutLines(old(buffer) + chunk).lines, parse, tools)
    {
      hide CutLines, HandleLines, NewlineIn;
      buffer := buffer + chunk;
      ghost var cut := CutLines(buffer);
      ghost var done: seq<Text> := [];
      NothingHandled(session, parse, tools);
      var nl := NewlineIn(buffer);
      while nl.Some?
        invariant nl == NewlineIn(buffer)
        invariant cut.lines == done + CutLines(buffer).lines && cut.rest == CutLines(buffer).rest
        invariant session == HandleLines(old(session), done, parse, tools)
        decreases |buffer|
      {
        var line := buffer[..nl.value];
        CutStep(buffer, nl.value);
        buffer := buffer[nl.value + 1..];
        ghost var more := CutLines(buffer).lines;
        assert done + ([line] + more) == (done + [line]) + more;
        LinesContinue(old(session), done, [line], parse, tools);
        HandledAlone(session, line, parse, tools);
        done := done + [line];
        match DecodeLine(line, parse) {
          case Blank =>
          case ParseError(response) => session := session.(replies := session.replies + [response]);
          case Decoded(request) =>
            match HandleRequest(session.state, request, tools) {
              case Returned(state, reply) =>
                session := Session(state, if reply.Some? then session.replies + [reply.value] else session.replies);
              case Raised(state) => session := Session(state, session.replies + [Failure(request.id, INTERNAL)]);
            }
        }
        nl := NewlineIn(buffer);
      }
      CutNone(buffer);
      assert done + [] == done;
    }
  }

  lemma NothingHandled<S>(x: Session<S>, parse: Text -> Json, tools: (S, Text) -> ToolOutcome<S>)
    ensures HandleLines(x, [], parse, tools) == x
  {
  }

  lemma HandledAlone<S>(x: Session<S>, line: Text, parse: Text -> Json, tools: (S, Text) -> ToolOutcome<S>)
    ensures HandleLines(x, [line], parse, tools) == HandleLine(x, line, parse, tools)
  {
    assert [line][1..] == [];
  }

  // ---- Chunking -------------------------------------------------------------

  datatype Running<S> = Running(buffer: Text, session: Session<S>)

  /** One call of the data handler, as `OnData` promises it. */
  function Feed<S>(x: Running<S>, chunk: Text, parse: Text -> Json, tools: (S, Text) -> ToolOutcome<S>): Running<S> {
    var cut := CutLines(x.buffer + chunk);
    Running(cut.rest, HandleLines(x.session, cut.lines, parse, tools))
  }

  function FeedAll<S>(x: Running<S>, chunks: seq<Text>, parse: Text -> Json,
                      tools: (S, Text) -> ToolOutcome<S>): Running<S>
    decreases |chunks|
  {
    if chunks == [] then x else FeedAll(Feed(x, chunks[0], parse, tools), chunks[1..], parse, tools)
  }

  function Concat(chunks: seq<Text>): Text {
    if chunks == [] then [] else chunks[0] + Concat(chunks[1..])
  }

  lemma FeedTwice<S>(x: Running<S>, a: Text, b: Text, parse: Text -> Json, tools: (S, Text) -> ToolOutcome<S>)
    ensures Feed(Feed(x, a, parse, tools), b, parse, tools) == Feed(x, a + b, parse, tools)
  {
    hide CutLines, HandleLines;
    var cut := CutLines(x.buffer + a);
    CutContinues(x.buffer + a, b);
    assert x.buffer + (a + b) == x.buffer + a + b;
    LinesContinue(x.session, cut.lines, CutLines(cut.rest + b).lines, parse, tools);
  }

  /** However the input is chunked, the buffer, the session and the ordered replies are those of one chunk. */
  lemma {:induction false} ChunkingIsIrrelevant<S>(x: Running<S>, chunks: seq<Text>,
                                                   parse: Text -> Json, tools: (S, Text) -> ToolOutcome<S>)
    requires NEWLINE !in x.buffer
    ensures FeedAll(x, chunks, parse, tools) == Feed(x, Concat(chunks), parse, tools)
    decreases |chunks|
  {
    if chunks == [] {
      assert x.buffer + [] == x.buffer;
      assert CutLines(x.buffer) == Cut([], x.buffer);
    } else {
      var next := Feed(x, chunks[0], parse, tools);
      CutIsLossless(x.buffer + chunks[0]);
      ChunkingIsIrrelevant(next, chunks[1..], parse, tools);
      FeedTwice(x, chunks[0], Concat(chunks[1..]), parse, tools);
    }
  }

  /** A line is answered at most once, in the order of the lines; earlier replies are never touched. */
  lemma {:induction false} RepliesFollowLines<S(!new)>(x: Session<S>, lines: seq<Text>,
                                                       parse: Text -> Json, tools: (S, Text) -> ToolOutcome<S>)
    ensures x.replies <= HandleLines(x, lines, parse, tools).replies
    ensures |HandleLines(x, lines, parse, tools).replies| <= |x.replies| + |lines|
    decreases |lines|
  {
    if lines != [] { RepliesFollowLines(HandleLine(x, lines[0], parse, tools), lines[1..], parse, tools); }
  }

  lemma {:induction false} TrimStartEnds(t: Text)
    ensures TrimStart(t + [RETURN]) == if TrimStart(t) == [] then [] else TrimStart(t) + [RETURN]
  {
    if t == [] {
      assert ([] + [RETURN])[1..] == [];
    } else {
      assert (t + [RETURN])[1..] == t[1..] + [RETURN];
      if IsJsSpace(t[0]) { TrimStartEnds(t[1..]); }
    }
  }

  /** Lines ended by CR LF are served like lines ended by LF. */
  lemma CarriageReturnIsIgnored<S>(x: Session<S>, line: Text, parse: Text -> Json, tools: (S, Text) -> ToolOutcome<S>)
    ensures HandleLine(x, line + [RETURN], parse, tools) == HandleLine(x, line, parse, tools)
  {
    TrimStartEnds(line);
    var start := TrimStart(line);
    assert (start + [RETURN])[..|start|] == start;
    assert Trim(line + [RETURN]) == Trim(line);
  }
}

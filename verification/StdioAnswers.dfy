/**
 What the stdio server answers: the error of each request that fails, the payload of each
 that succeeds, and how a line becomes a request, each said of the request itself.
 */
module StdioAnswers {
  import opened Texts
  import opened StdioFraming

  // ---- Requests -----------------------------------------------------------------

  /** The code a request with an id is refused with, if any (JSON-RPC 2.0, section 5.1). */
  function RefusalOf(r: Request): Option<int> {
    if r.declared.Unsupported? then Some(-32022)
    else if r.declared.Stateless? && (r.name.Initialize? || r.name.Initialized? || r.name.Ping?) then Some(-32601)
    else if r.name.Other? then Some(-32601)
    else if r.name == ToolsCall(false) || r.name == ResourcesRead(false) then Some(-32602)
    else None
  }

  /** A request with an id is refused with its code and changes nothing, or it is served. */
  lemma RefusedIff<S(!new)>(s: S, r: Request, tools: (S, Text) -> ToolOutcome<S>)
    requires r.id.Some?
    ensures var h := HandleRequest(s, r, tools);
            (h.Returned? && h.reply.Some? && h.reply.value.Failure? <==> RefusalOf(r).Some?) &&
            (RefusalOf(r).Some? ==> h == Returned(s, Some(Failure(r.id, RefusalOf(r).value))))
  {
  }

  /** A request that is served carries its own contents, its handler's text, or its method's fixed result. */
  lemma ServedWith<S(!new)>(s: S, r: Request, tools: (S, Text) -> ToolOutcome<S>)
    requires r.id.Some? && RefusalOf(r) == None && !r.name.ToolsCall?
    ensures var h := HandleRequest(s, r, tools);
            h.Returned? && h.state == s &&
            (h.reply.None? <==> r.name.Initialized?) &&
            (h.reply.Some? ==>
               h.reply.value.Success? && h.reply.value.id == r.id &&
               h.reply.value.payload == (if r.name.ResourcesRead? then Contents(r.body) else Fixed(r.name)))
  {
  }

  /** A tool call runs its handler once, on the session's state; a throw is left to the line. */
  lemma ToolCalled<S(!new)>(s: S, r: Request, tools: (S, Text) -> ToolOutcome<S>)
    requires r.id.Some? && r.name == ToolsCall(true) && !r.declared.Unsupported?
    ensures match tools(s, r.body)
            case ToolReturned(next, text) =>
              HandleRequest(s, r, tools) ==
              Returned(next, Some(Success(r.id, ToolResult(text), r.declared.Stateless?, false)))
            case ToolRaised(next) => HandleRequest(s, r, tools) == Raised(next)
  {
  }

  /** Cache hints show exactly on discovery and on the lists and contents of the stateless revision. */
  lemma HintedIff<S(!new)>(s: S, r: Request, tools: (S, Text) -> ToolOutcome<S>)
    requires HandleRequest(s, r, tools).Returned? && HandleRequest(s, r, tools).reply.Some?
    requires HandleRequest(s, r, tools).reply.value.Success?
    ensures HandleRequest(s, r, tools).reply.value.cacheHints <==>
            r.name.Discover? ||
            (r.declared.Stateless? && (r.name.ToolsList? || r.name.ResourcesList? || r.name.TemplatesList? ||
                                       r.name.ResourcesRead?))
    ensures HandleRequest(s, r, tools).reply.value.resultType <==> r.name.Discover? || r.declared.Stateless?
  {
  }

  // ---- Lines --------------------------------------------------------------------

  ghost predicate AllSpace(t: Text) {
    forall k :: 0 <= k < |t| ==> IsJsSpace(t[k])
  }

  /** `t` is `core` between white space, and `core` begins and ends with something else. */
  ghost predicate TrimsTo(t: Text, core: Text) {
    && (core != [] ==> !IsJsSpace(core[0]) && !IsJsSpace(core[|core| - 1]))
    && exists a, b :: AllSpace(a) && AllSpace(b) && t == a + (core + b)
  }

  lemma {:induction false} TrimStartIs(t: Text) returns (a: Text)
    ensures AllSpace(a) && t == a + TrimStart(t)
    ensures TrimStart(t) != [] ==> !IsJsSpace(TrimStart(t)[0])
    decreases |t|
  {
    if t != [] && IsJsSpace(t[0]) {
      var rest := TrimStartIs(t[1..]);
      a := [t[0]] + rest;
      assert t == [t[0]] + t[1..];
    } else {
      a := [];
    }
  }

  lemma {:induction false} TrimEndIs(t: Text) returns (b: Text)
    ensures AllSpace(b) && t == TrimEnd(t) + b
    ensures TrimEnd(t) != [] ==> !IsJsSpace(TrimEnd(t)[|TrimEnd(t)| - 1]) && TrimEnd(t)[0] == t[0]
    decreases |t|
  {
    if t != [] && IsJsSpace(t[|t| - 1]) {
      var rest := TrimEndIs(t[..|t| - 1]);
      b := rest + [t[|t| - 1]];
      assert t == t[..|t| - 1] + [t[|t| - 1]];
    } else {
      b := [];
      assert t + [] == t;
    }
  }

  lemma TrimIs(t: Text)
    ensures TrimsTo(t, Trim(t))
    ensures Trim(t) == [] <==> AllSpace(t)
  {
    var a := TrimStartIs(t);
    var b := TrimEndIs(TrimStart(t));
    assert t == a + (Trim(t) + b);
    if Trim(t) == [] {
      assert Trim(t) + b == b;
    } else {
      assert t[|a|] == Trim(t)[0];
    }
  }

  /** A line is skipped when blank, refused when it does not parse or is no request, and else decoded. */
  lemma DecodedIs(line: Text, parse: Text -> Json)
    ensures DecodeLine(line, parse) == Blank <==> AllSpace(line)
    ensures !AllSpace(line) ==>
              exists core :: TrimsTo(line, core) && core != [] &&
                DecodeLine(line, parse) ==
                match parse(core)
                case NotJson => ParseError(Failure(None, -32700))
                case NullJson => ParseError(Failure(None, -32700))
                case Value(id, isRequest, request) =>
                  if isRequest then Decoded(request) else ParseError(Failure(id, -32600))
  {
    TrimIs(line);
  }

  /** A handler's throw keeps what it did to the session and is answered as an internal error. */
  lemma ThrowIsAnswered<S(!new)>(x: Session<S>, line: Text, parse: Text -> Json, tools: (S, Text) -> ToolOutcome<S>)
    requires DecodeLine(line, parse).Decoded?
    requires var r := DecodeLine(line, parse).request;
             r.id.Some? && r.name == ToolsCall(true) && !r.declared.Unsupported? && tools(x.state, r.body).ToolRaised?
    ensures var r := DecodeLine(line, parse).request;
            HandleLine(x, line, parse, tools) ==
            Session(tools(x.state, r.body).state, x.replies + [Failure(r.id, -32603)])
  {
    hide DecodeLine;
  }
}

// What http/HttpContext.cpp and http/HttpRequest.cpp compute, on values, and what it means:
// the accepted grammar, and independence of how the stream is cut into reads.
module HttpMessage {
  import opened Octets
  import opened LineParser

  datatype Method = Invalid | Get | Post | Head | Put | Delete

  datatype Request = Request(
    verb: Method, path: string, query: string, receiveTime: int, headers: map<string, string>)

  datatype ParseState = ExpectRequestLine | ExpectHeader | ExpectBody | GotAll

  datatype Context = Context(state: ParseState, request: Request)

  const EMPTY: Request := Request(Invalid, "", "", 0, map[])
  const FRESH: Context := Context(ExpectRequestLine, EMPTY)

  const VERSION: string := "HTTP/1.1"

  // ---------- tokens and header lines ----------

  function MethodOf(token: string): Method {
    if token == "GET" then Get
    else if token == "POST" then Post
    else if token == "HEAD" then Head
    else if token == "PUT" then Put
    else if token == "DELETE" then Delete
    else Invalid
  }

  function MethodString(m: Method): string {
    match m
    case Get => "GET"
    case Post => "POST"
    case Head => "HEAD"
    case Put => "PUT"
    case Delete => "DELETE"
    case Invalid => "UNKNOWN"
  }

  /** `isspace` in the C locale: tab, line feed, vertical tab, form feed, carriage return and the blank. */
  predicate IsSpace(c: char) {
    c == ' ' || 9 <= c as int <= 13
  }

  lemma SpacesAre(c: char)
    ensures IsSpace(c) <==> c in {'\t', '\n', 11 as char, 12 as char, '\r', ' '}
  {
  }

  function TrimLeft(s: string): string {
    if s != [] && IsSpace(s[0]) then TrimLeft(s[1..]) else s
  }

  function TrimRight(s: string): string {
    if s != [] && IsSpace(s[|s| - 1]) then TrimRight(s[..|s| - 1]) else s
  }

  function Trim(s: string): string {
    TrimRight(TrimLeft(s))
  }

  predicate Blank(s: string) {
    forall i :: 0 <= i < |s| ==> IsSpace(s[i])
  }

  predicate Trimmed(s: string) {
    s != [] ==> !IsSpace(s[0]) && !IsSpace(s[|s| - 1])
  }

  /** `Trim` removes exactly the outer white space: this pins it down together with `TrimSplits`. */
  lemma {:induction false} TrimUnwraps(pre: string, core: string, post: string)
    requires Blank(pre) && Trimmed(core) && Blank(post)
    ensures Trim(pre + core + post) == core
  {
    if pre != [] {
      assert (pre + core + post)[1..] == pre[1..] + core + post;
      TrimUnwraps(pre[1..], core, post);
    } else if core == [] {
      assert pre + core + post == post;
      TrimLeftBlank(post);
    } else {
      assert pre + core + post == core + post;
      TrimRightUnwraps(core, post);
    }
  }

  lemma {:induction false} TrimLeftBlank(s: string)
    requires Blank(s)
    ensures TrimLeft(s) == []
  {
    if s != [] {
      TrimLeftBlank(s[1..]);
    }
  }

  lemma {:induction false} TrimRightUnwraps(core: string, post: string)
    requires core != [] && Trimmed(core) && Blank(post)
    ensures TrimRight(core + post) == core
  {
    if post == [] {
      assert core + post == core;
    } else {
      assert (core + post)[..|core + post| - 1] == core + post[..|post| - 1];
      TrimRightUnwraps(core, post[..|post| - 1]);
    }
  }

  lemma {:induction false} TrimSplits(s: string) returns (pre: string, post: string)
    ensures Blank(pre) && Blank(post) && Trimmed(Trim(s))
    ensures s == pre + Trim(s) + post
  {
    if s == [] {
      pre, post := [], [];
    } else if IsSpace(s[0]) {
      pre, post := TrimSplits(s[1..]);
      pre := [s[0]] + pre;
    } else if IsSpace(s[|s| - 1]) {
      pre, post := TrimSplits(s[..|s| - 1]);
      assert s == s[..|s| - 1] + [s[|s| - 1]];
      post := post + [s[|s| - 1]];
    } else {
      pre, post := [], [];
    }
  }

  function HeaderField(line: string): string {
    line[..Find(line, ':')]
  }

  function HeaderValue(line: string): string
    requires Find(line, ':') < |line|
  {
    Trim(line[Find(line, ':') + 1..])
  }

  /** A header line of any shape: the text before its first colon names the field, white space around the value
      is dropped, and further colons belong to the value. */
  lemma HeaderLineReads(req: Request, field: string, pre: string, value: string, post: string)
    requires ':' !in field && Blank(pre) && Trimmed(value) && Blank(post)
    ensures var line := field + ":" + (pre + value + post);
            Find(line, ':') < |line| && WithHeader(req, line) == req.(headers := req.headers[field := value])
  {
    var line := field + ":" + (pre + value + post);
    FindUnique(line, ':', |field|);
    assert line[..|field|] == field && line[|field| + 1..] == pre + value + post;
    TrimUnwraps(pre, value, post);
  }

  // ---------- the request line ----------

  function SetTarget(req: Request, target: string): Request {
    var question := Find(target, '?');
    if question < |target| then
      req.(path := target[..question], query := target[question..])
    else
      req.(path := target)
  }

  /** A target is cut before its first question mark, which begins the query. */
  predicate Splits(target: string, path: string, query: string) {
    path + query == target && '?' !in path && (query == "" || query[0] == '?')
  }

  lemma TargetSplits(req: Request, target: string)
    requires req.query == ""
    ensures Splits(target, SetTarget(req, target).path, SetTarget(req, target).query)
  {
    var question := Find(target, '?');
    FindUnique(target, '?', question);
    assert target == target[..question] + target[question..];
    assert target + "" == target;
  }

  /** There is one such cut. */
  lemma SplitIsUnique(target: string, p1: string, q1: string, p2: string, q2: string)
    requires Splits(target, p1, q1) && Splits(target, p2, q2)
    ensures p1 == p2 && q1 == q2
  {
    SplitAt(target, p1, q1);
    SplitAt(target, p2, q2);
  }

  lemma SplitAt(target: string, path: string, query: string)
    requires Splits(target, path, query)
    ensures |path| == Find(target, '?') && path == target[..|path|] && query == target[|path|..]
  {
    FindUnique(target, '?', |path|);
  }

  /** The part after the method: the target, and exactly "HTTP/1.1" behind it. */
  function ProcessTail(named: Request, tail: string): (bool, Request) {
    var space := Find(tail, ' ');
    if space == |tail| then (false, named)
    else (tail[space + 1..] == VERSION, SetTarget(named, tail[..space]))
  }

  /** The outcome of `processRequestLine` and the request it leaves, also when it fails half-way. */
  function ProcessLine(req: Request, line: string): (bool, Request) {
    var space := Find(line, ' ');
    if space == |line| then
      (false, req)
    else
      var named := req.(verb := MethodOf(line[..space]));
      if named.verb == Invalid then (false, named) else ProcessTail(named, line[space + 1..])
  }

  // ---------- the parser ----------

  /** The states `parseRequest` may be entered in; in the two others its loop would not end. */
  predicate Ready(ctx: Context) {
    (ctx.state == ExpectRequestLine && ctx.request.verb == Invalid) || ctx.state == ExpectHeader
  }

  /** The effect of one complete line: of the request line first, then of the header lines. */
  function LineTurn(ctx: Context, line: string, time: int): Turn<Context> {
    if ctx.state == ExpectRequestLine then
      var (ok, req) := ProcessLine(ctx.request, line);
      if ok then More(Context(ExpectHeader, req.(receiveTime := time)))
      else Fail(ctx.(request := req))
    else if Find(line, ':') < |line| then
      More(ctx.(request := WithHeader(ctx.request, line)))
    else
      End(ctx.(state := GotAll))
  }

  function Parse(ctx: Context, bytes: string, time: int): Outcome<Context>
    requires Ready(ctx)
  {
    Eat(LineTurn, ctx, bytes, time)
  }

  /** One step of the loop on a complete request line, given what `processRequestLine` made of it. */
  lemma RequestLineStep(ctx: Context, bytes: string, time: int, ok: bool, req: Request)
    requires ctx.state == ExpectRequestLine && ctx.request.verb == Invalid && Search(bytes) < |bytes|
    requires (ok, req) == ProcessLine(ctx.request, bytes[..Search(bytes)])
    ensures Parse(ctx, bytes, time) ==
              if ok then
                Parse(Context(ExpectHeader, req.(receiveTime := time)), bytes[Search(bytes) + 2..], time)
              else Outcome(Bad, ctx.(request := req), bytes)
  {
  }

  /** One step of the loop on a complete header line. */
  lemma HeaderLineStep(ctx: Context, bytes: string, time: int)
    requires ctx.state == ExpectHeader && Search(bytes) < |bytes|
    ensures var line, rest := bytes[..Search(bytes)], bytes[Search(bytes) + 2..];
            Parse(ctx, bytes, time) ==
              if Find(line, ':') < |line| then Parse(ctx.(request := WithHeader(ctx.request, line)), rest, time)
              else Outcome(Complete, ctx.(state := GotAll), rest)
  {
  }

  function WithHeader(req: Request, line: string): Request
    requires Find(line, ':') < |line|
  {
    req.(headers := req.headers[HeaderField(line) := HeaderValue(line)])
  }

  predicate InRequestLine(ctx: Context) {
    ctx.state == ExpectRequestLine
  }

  predicate InHeader(ctx: Context) {
    ctx.state == ExpectHeader
  }

  lemma LinePhases()
    ensures Phases(LineTurn, InRequestLine, InHeader)
  {
  }

  /** An unfinished parse may be resumed and has used up every complete line; a failed one took nothing. */
  lemma ParseStates(ctx: Context, bytes: string, time: int)
    requires Ready(ctx)
    ensures var o := Parse(ctx, bytes, time);
            && (o.status == Incomplete ==> Ready(o.ctx) && FirstLine(o.rest).NoLine?)
            && (o.status == Incomplete && o.ctx.state == ExpectRequestLine ==> o.ctx == ctx)
            && (o.status == Bad ==> ctx.state == ExpectRequestLine && o.rest == bytes)
            && (o.status == Complete <==> o.ctx.state == GotAll)
  {
    LinePhases();
    EatKeepsPhases(LineTurn, InRequestLine, InHeader, ctx, bytes, time);
    FinalStates(ctx, bytes, time);
  }

  lemma {:induction false} FinalStates(ctx: Context, bytes: string, time: int)
    requires ctx.state in {ExpectRequestLine, ExpectHeader}
    ensures var o := Eat(LineTurn, ctx, bytes, time);
            o.status == Complete <==> o.ctx.state == GotAll
    decreases |bytes|
  {
    var cut := FirstLine(bytes);
    if cut.Line? {
      var t := LineTurn(ctx, cut.line, time);
      if t.More? {
        FinalStates(t.ctx, cut.rest, time);
      }
    }
  }

  // ---------- cutting the stream ----------

  /** Parsing `a` and later `b` is parsing `a + b`, wherever the cut falls, between CR and LF too. */
  lemma Resume(ctx: Context, a: string, b: string, time: int)
    requires Ready(ctx)
    ensures var o := Parse(ctx, a, time);
            if o.status == Incomplete
            then Ready(o.ctx) && Parse(ctx, a + b, time) == Parse(o.ctx, o.rest + b, time)
            else Parse(ctx, a + b, time) == o.(rest := o.rest + b)
  {
    ParseStates(ctx, a, time);
    EatResumes(LineTurn, ctx, a, b, time);
  }

  /** A context but for the receive time, which is recorded and never read. */
  function Untimed(ctx: Context): Context {
    ctx.(request := ctx.request.(receiveTime := 0))
  }

  lemma LineIgnoresTime()
    ensures Timeless(LineTurn, Untimed)
  {
    forall c1, c2, line, t1, t2 | Untimed(c1) == Untimed(c2)
      ensures Seen(Untimed, LineTurn(c1, line, t1)) == Seen(Untimed, LineTurn(c2, line, t2))
    {
    }
  }

  /** Any number of reads, cut anywhere, end like one read of all the bytes, receive time aside. */
  lemma FragmentationIsInvisible(ctx: Context, pending: string, chunks: seq<Chunk>, time: int)
    requires Ready(ctx)
    requires chunks == [] ==> FirstLine(pending).NoLine?
    ensures Alike(Untimed, Feed(LineTurn, ctx, pending, chunks), Parse(ctx, pending + Joined(chunks), time))
  {
    LineIgnoresTime();
    FeedIsEat(LineTurn, Untimed, ctx, pending, chunks, time);
  }

  // ---------- the accepted grammar ----------

  /** A request as text: `last` is the line without a colon that ends the headers. */
  datatype Message = Message(verb: Method, target: string, headers: seq<string>, last: string, rest: string)

  function RequestLine(verb: Method, target: string): string {
    MethodString(verb) + " " + target + " " + VERSION
  }

  /** One of the five methods, a target without a blank, and the one version, with a blank between them. */
  ghost predicate AcceptedLine(line: string) {
    exists token: string, target: string :: AcceptedAs(line, token, target)
  }

  predicate AcceptedAs(line: string, token: string, target: string) {
    && token in {"GET", "POST", "HEAD", "PUT", "DELETE"}
    && ' ' !in target
    && line == token + " " + target + " HTTP/1.1"
  }

  ghost predicate WellFormed(m: Message) {
    && m.verb != Invalid
    && ' ' !in m.target
    && CrlfFree(RequestLine(m.verb, m.target))
    && (forall i :: 0 <= i < |m.headers| ==> CrlfFree(m.headers[i]) && ':' in m.headers[i])
    && CrlfFree(m.last)
    && ':' !in m.last
  }

  function HeaderBlock(headers: seq<string>, last: string): string {
    if headers == [] then last + CRLF else headers[0] + CRLF + HeaderBlock(headers[1..], last)
  }

  function Print(m: Message): string {
    RequestLine(m.verb, m.target) + CRLF + HeaderBlock(m.headers, m.last) + m.rest
  }

  function Fold(headers: map<string, string>, lines: seq<string>): map<string, string>
    requires forall i :: 0 <= i < |lines| ==> ':' in lines[i]
    decreases |lines|
  {
    if lines == [] then headers
    else
      Fold(headers[HeaderField(lines[0]) := ValueOf(lines[0])], lines[1..])
  }

  function ValueOf(line: string): string
    requires ':' in line
  {
    ColonFound(line);
    HeaderValue(line)
  }

  lemma ColonFound(line: string)
    ensures ':' in line <==> Find(line, ':') < |line|
  {
    FindUnique(line, ':', Find(line, ':'));
  }

  /** The request a well-formed message denotes. */
  function Meaning(m: Message, time: int): Request
    requires forall i :: 0 <= i < |m.headers| ==> ':' in m.headers[i]
  {
    SetTarget(Request(m.verb, "", "", time, Fold(map[], m.headers)), m.target)
  }

  lemma {:induction false} HeaderBlockAppend(front: seq<string>, lines: seq<string>, last: string)
    ensures HeaderBlock(front + lines, last) == Lines(front) + HeaderBlock(lines, last)
  {
    if front == [] {
      assert front + lines == lines;
    } else {
      HeaderBlockAppend(front[1..], lines, last);
      assert (front + lines)[1..] == front[1..] + lines;
      Regroup(front[0] + CRLF, Lines(front[1..]), HeaderBlock(lines, last));
    }
  }

  function Lines(lines: seq<string>): string {
    if lines == [] then "" else lines[0] + CRLF + Lines(lines[1..])
  }

  lemma {:induction false} FoldAppend(base: map<string, string>, front: seq<string>, lines: seq<string>)
    requires forall i :: 0 <= i < |front| ==> ':' in front[i]
    requires forall i :: 0 <= i < |lines| ==> ':' in lines[i]
    ensures Fold(base, front + lines) == Fold(Fold(base, front), lines)
    decreases |front|
  {
    if front == [] {
      assert front + lines == lines;
    } else {
      FoldAppend(base[HeaderField(front[0]) := ValueOf(front[0])], front[1..], lines);
      assert (front + lines)[1..] == front[1..] + lines;
    }
  }

  /** Of several lines naming a field, the last one gives its value. */
  lemma {:induction false} LastHeaderWins(base: map<string, string>, lines: seq<string>, i: nat)
    requires forall j :: 0 <= j < |lines| ==> ':' in lines[j]
    requires i < |lines|
    requires forall j :: i < j < |lines| ==> HeaderField(lines[j]) != HeaderField(lines[i])
    ensures HeaderField(lines[i]) in Fold(base, lines)
    ensures Fold(base, lines)[HeaderField(lines[i])] == ValueOf(lines[i])
    decreases i
  {
    var next := base[HeaderField(lines[0]) := ValueOf(lines[0])];
    if i > 0 {
      LastHeaderWins(next, lines[1..], i - 1);
    } else {
      UntouchedField(next, lines[1..], HeaderField(lines[0]));
    }
  }

  /** A field that no line names is left as it was. */
  lemma {:induction false} UntouchedField(base: map<string, string>, lines: seq<string>, field: string)
    requires forall j :: 0 <= j < |lines| ==> ':' in lines[j]
    requires forall j :: 0 <= j < |lines| ==> HeaderField(lines[j]) != field
    ensures field in Fold(base, lines) <==> field in base
    ensures field in base ==> Fold(base, lines)[field] == base[field]
    decreases |lines|
  {
    if lines != [] {
      UntouchedField(base[HeaderField(lines[0]) := ValueOf(lines[0])], lines[1..], field);
    }
  }

  lemma TokenReads(verb: Method)
    requires verb != Invalid
    ensures MethodOf(MethodString(verb)) == verb
    ensures forall i :: 0 <= i < |MethodString(verb)| ==> MethodString(verb)[i] != ' '
  {
  }

  lemma CutAtSpace(s: string, n: nat)
    requires n < |s| && s[n] == ' '
    ensures s == s[..n] + " " + s[n + 1..]
  {
  }

  lemma FindSpace(head: string, tail: string)
    requires forall i :: 0 <= i < |head| ==> head[i] != ' '
    ensures var s := head + " " + tail;
            Find(s, ' ') == |head| && s[..|head|] == head && s[|head| + 1..] == tail
  {
    FindUnique(head + " " + tail, ' ', |head|);
  }

  /** `processRequestLine` accepts the lines of the grammar, and reads them as the grammar does ... */
  lemma LineIsAccepted(req: Request, verb: Method, target: string)
    requires verb != Invalid && ' ' !in target
    ensures ProcessLine(req, RequestLine(verb, target)) == (true, SetTarget(req.(verb := verb), target))
  {
    var token, tail := MethodString(verb), target + " " + VERSION;
    TokenReads(verb);
    assert RequestLine(verb, target) == token + " " + tail;
    FindSpace(token, tail);
    FindSpace(target, VERSION);
  }

  lemma TokenRebuilds(token: string)
    requires MethodOf(token) != Invalid
    ensures MethodString(MethodOf(token)) == token
  {
  }

  lemma TargetRebuilds(req: Request, target: string)
    requires req.query == ""
    ensures var req' := SetTarget(req, target);
            && Splits(target, req'.path, req'.query)
            && req'.verb == req.verb && req'.receiveTime == req.receiveTime && req'.headers == req.headers
  {
    TargetSplits(req, target);
  }

  lemma TailRebuilds(named: Request, tail: string)
    requires named.query == "" && ProcessTail(named, tail).0
    ensures var req' := ProcessTail(named, tail).1;
            var target := req'.path + req'.query;
            && tail == target + " " + VERSION && ' ' !in target
            && Splits(target, req'.path, req'.query) && req' == SetTarget(named, target)
            && req'.verb == named.verb
            && req'.receiveTime == named.receiveTime && req'.headers == named.headers
  {
    var space := Find(tail, ' ');
    CutAtSpace(tail, space);
    FindUnique(tail, ' ', space);
    TargetRebuilds(named, tail[..space]);
  }

  /** ... and no others: method, path and query give back the line. */
  lemma AcceptedLineRebuilds(req: Request, line: string)
    requires req.query == "" && ProcessLine(req, line).0
    ensures var req' := ProcessLine(req, line).1;
            && line == RequestLine(req'.verb, req'.path + req'.query)
            && ' ' !in req'.path + req'.query
            && '?' !in req'.path && (req'.query == "" || req'.query[0] == '?')
            && req'.verb != Invalid
            && req' == SetTarget(req.(verb := req'.verb), req'.path + req'.query)
            && req'.receiveTime == req.receiveTime && req'.headers == req.headers
  {
    var space := Find(line, ' ');
    var token, tail := line[..space], line[space + 1..];
    CutAtSpace(line, space);
    TokenRebuilds(token);
    TailRebuilds(req.(verb := MethodOf(token)), tail);
    JoinWords(token, ProcessLine(req, line).1.path + ProcessLine(req, line).1.query);
  }

  /** The version is looked at last: behind a known method the target is stored whatever follows it, also when the
      line then fails; without a second blank, or behind an unknown method, nothing is stored but the method. */
  lemma VersionIsCheckedLast(req: Request, token: string, target: string, version: string)
    requires ' ' !in token && ' ' !in target && req.query == ""
    ensures var (ok, req') := ProcessLine(req, token + " " + (target + " " + version));
            var known := token in {"GET", "POST", "HEAD", "PUT", "DELETE"};
            && (ok <==> known && version == "HTTP/1.1")
            && req'.headers == req.headers && req'.receiveTime == req.receiveTime
            && (known ==> MethodString(req'.verb) == token && Splits(target, req'.path, req'.query))
            && (!known ==> req'.verb == Invalid && req'.path == req.path && req'.query == req.query)
    ensures ProcessLine(req, token + " " + target) == (false, req.(verb := MethodOf(token)))
  {
    var named := req.(verb := MethodOf(token));
    FirstWord(req, token, target + " " + version);
    TailIs(named, target, version);
    FirstWord(req, token, target);
    FindUnique(target, ' ', |target|);
    KnownIff(token);
    TargetRebuilds(named, target);
  }

  lemma FirstWord(req: Request, token: string, tail: string)
    requires ' ' !in token
    ensures var named := req.(verb := MethodOf(token));
            ProcessLine(req, token + " " + tail) ==
              if named.verb == Invalid then (false, named) else ProcessTail(named, tail)
  {
    FindSpace(token, tail);
  }

  lemma TailIs(named: Request, target: string, version: string)
    requires ' ' !in target
    ensures ProcessTail(named, target + " " + version) == (version == "HTTP/1.1", SetTarget(named, target))
  {
    FindSpace(target, version);
  }

  lemma KnownIff(token: string)
    ensures MethodOf(token) != Invalid <==> token in {"GET", "POST", "HEAD", "PUT", "DELETE"}
    ensures MethodOf(token) != Invalid ==> MethodString(MethodOf(token)) == token
  {
  }

  lemma JoinWords(token: string, target: string)
    ensures token + " " + (target + " " + VERSION) == token + " " + target + " " + VERSION
  {
  }

  lemma LastWords(token: string, target: string)
    ensures token + " " + target + " " + VERSION == token + " " + target + " HTTP/1.1"
  {
  }

  lemma AcceptedLineIff(req: Request, line: string)
    requires req.query == ""
    ensures ProcessLine(req, line).0 <==> AcceptedLine(line)
  {
    if ProcessLine(req, line).0 {
      AcceptedLineRebuilds(req, line);
      var req' := ProcessLine(req, line).1;
      LastWords(MethodString(req'.verb), req'.path + req'.query);
      assert AcceptedAs(line, MethodString(req'.verb), req'.path + req'.query);
    }
    forall token: string, target: string | AcceptedAs(line, token, target)
      ensures ProcessLine(req, line).0
    {
      TokenRebuilds(token);
      LastWords(token, target);
      LineIsAccepted(req, MethodOf(token), target);
    }
  }

  /** What the outcome of `processRequestLine` says of the line, beginning with an empty query: accepted exactly
      on the grammar, and then method, path and query rebuild it, the path ending before the first question mark. */
  ghost predicate LineIsRead(line: string, ok: bool, req: Request) {
    && (ok <==> AcceptedLine(line))
    && (ok ==>
          && line == MethodString(req.verb) + " " + (req.path + req.query) + " HTTP/1.1"
          && '?' !in req.path && (req.query == "" || req.query[0] == '?'))
  }

  lemma AnyLineIsRead(req: Request, line: string)
    ensures req.query == "" ==> LineIsRead(line, ProcessLine(req, line).0, ProcessLine(req, line).1)
  {
    if req.query == "" {
      AcceptedLineIff(req, line);
      if ProcessLine(req, line).0 {
        AcceptedLineRebuilds(req, line);
        var req' := ProcessLine(req, line).1;
        LastWords(MethodString(req'.verb), req'.path + req'.query);
      }
    }
  }

  lemma {:induction false} HeadersParse(req: Request, headers: seq<string>, last: string, rest: string, time: int)
    requires forall i :: 0 <= i < |headers| ==> CrlfFree(headers[i]) && ':' in headers[i]
    requires CrlfFree(last) && ':' !in last
    ensures Parse(Context(ExpectHeader, req), HeaderBlock(headers, last) + rest, time)
         == Outcome(Complete, Context(GotAll, req.(headers := Fold(req.headers, headers))), rest)
    decreases |headers|
  {
    var line := if headers == [] then last else headers[0];
    var after := if headers == [] then rest else HeaderBlock(headers[1..], last) + rest;
    var bytes := HeaderBlock(headers, last) + rest;
    assert bytes == line + CRLF + after;
    FirstLineIs(line, after);
    ColonFound(line);
    HeaderLineStep(Context(ExpectHeader, req), bytes, time);
    if headers != [] {
      HeadersParse(WithHeader(req, line), headers[1..], last, rest, time);
    }
  }

  /** What a request read from the text of `m` holds, `o` being the outcome of the parse. */
  predicate Holds(m: Message, time: int, o: Outcome<Context>)
    requires forall i :: 0 <= i < |m.headers| ==> ':' in m.headers[i]
  {
    && o.ctx.request.verb == m.verb
    && o.ctx.request.path + o.ctx.request.query == m.target
    && '?' !in o.ctx.request.path && (o.ctx.request.query == "" || o.ctx.request.query[0] == '?')
    && o.ctx.request.headers == Fold(map[], m.headers)
    && o.ctx.request.receiveTime == time
    && o.rest == m.rest
  }

  /** The text of every well-formed message parses to what it means. */
  lemma PrintedMessageParses(m: Message, time: int)
    requires WellFormed(m)
    ensures Parse(FRESH, Print(m), time) == Outcome(Complete, Context(GotAll, Meaning(m, time)), m.rest)
    ensures Holds(m, time, Parse(FRESH, Print(m), time))
  {
    var line := RequestLine(m.verb, m.target);
    var after := HeaderBlock(m.headers, m.last) + m.rest;
    assert Print(m) == line + CRLF + after;
    FirstLineIs(line, after);
    LineIsAccepted(EMPTY, m.verb, m.target);
    var req := SetTarget(EMPTY.(verb := m.verb), m.target).(receiveTime := time);
    HeadersParse(req, m.headers, m.last, m.rest, time);
    TargetRebuilds(EMPTY.(verb := m.verb), m.target);
  }

  lemma {:induction false} ParsedHeadersSplit(req: Request, bytes: string, time: int)
    returns (headers: seq<string>, last: string, rest: string)
    requires Parse(Context(ExpectHeader, req), bytes, time).status == Complete
    ensures bytes == HeaderBlock(headers, last) + rest
    ensures forall i :: 0 <= i < |headers| ==> CrlfFree(headers[i]) && ':' in headers[i]
    ensures CrlfFree(last) && ':' !in last
    decreases |bytes|
  {
    var crlf := Search(bytes);
    SearchSplit(bytes);
    var line, after := bytes[..crlf], bytes[crlf + 2..];
    ColonFound(line);
    if ':' in line {
      headers, last, rest := ParsedHeadersSplit(WithHeader(req, line), after, time);
      HeaderBlockCons(line, headers, last, rest);
      headers := [line] + headers;
    } else {
      headers, last, rest := [], line, after;
    }
  }

  lemma HeaderBlockCons(line: string, headers: seq<string>, last: string, rest: string)
    ensures HeaderBlock([line] + headers, last) + rest == line + CRLF + (HeaderBlock(headers, last) + rest)
  {
    assert ([line] + headers)[1..] == headers;
  }

  /** Every byte string that completes a request is the text of a well-formed message. */
  lemma CompletedRequestIsPrinted(bytes: string, time: int) returns (m: Message)
    requires Parse(FRESH, bytes, time).status == Complete
    ensures WellFormed(m) && Print(m) == bytes
  {
    var crlf := Search(bytes);
    SearchSplit(bytes);
    var line, after := bytes[..crlf], bytes[crlf + 2..];
    AcceptedLineRebuilds(EMPTY, line);
    var req := ProcessLine(EMPTY, line).1;
    var headers, last, rest := ParsedHeadersSplit(req.(receiveTime := time), after, time);
    m := Message(req.verb, req.path + req.query, headers, last, rest);
    assert Print(m) == line + CRLF + after;
  }

  /** A fresh context completes exactly on the grammar, and then request and leftover are the message's: method,
      path and query rebuild its line, the path ending before the first question mark. */
  lemma GrammarIff(bytes: string, time: int)
    ensures Parse(FRESH, bytes, time).status == Complete <==> exists m :: WellFormed(m) && Print(m) == bytes
    ensures forall m :: WellFormed(m) && Print(m) == bytes ==> Holds(m, time, Parse(FRESH, bytes, time))
  {
    if Parse(FRESH, bytes, time).status == Complete {
      var m := CompletedRequestIsPrinted(bytes, time);
    }
    forall m | WellFormed(m) && Print(m) == bytes
      ensures Parse(FRESH, bytes, time).status == Complete && Holds(m, time, Parse(FRESH, bytes, time))
    {
      PrintedMessageParses(m, time);
    }
  }

  /** Parsing fails exactly when a first line is complete and is not an accepted request line. */
  lemma FailureIff(bytes: string, time: int)
    ensures Parse(FRESH, bytes, time).status == Bad
       <==> FirstLine(bytes).Line? && !AcceptedLine(FirstLine(bytes).line)
  {
    var cut := FirstLine(bytes);
    if cut.Line? {
      AcceptedLineIff(EMPTY, cut.line);
      var (ok, req) := ProcessLine(EMPTY, cut.line);
      if ok {
        LinePhases();
        EatLaterNeverFails(LineTurn, InRequestLine, InHeader,
                           Context(ExpectHeader, req.(receiveTime := time)), cut.rest, time);
      }
    }
  }

  // ---------- after a failure ----------

  predicate NamesMethod(line: string) {
    Find(line, ' ') < |line| && MethodOf(line[..Find(line, ' ')]) != Invalid
  }

  /** A failed context may be parsed again exactly when the bad line does not start with a known method. */
  lemma FailedContextIsReadyIff(bytes: string, time: int)
    requires Parse(FRESH, bytes, time).status == Bad
    ensures FirstLine(bytes).Line?
    ensures Ready(Parse(FRESH, bytes, time).ctx) <==> !NamesMethod(FirstLine(bytes).line)
  {
    FailureIff(bytes, time);
    AcceptedLineIff(EMPTY, FirstLine(bytes).line);
  }

  /** A request in an unsupported version leaves the method set, so the next call would trip its assertion. */
  lemma FailedContextNeedNotBeReady(time: int)
    ensures var bytes := "GET / HTTP/1.0\r\n";
            Parse(FRESH, bytes, time).status == Bad && !Ready(Parse(FRESH, bytes, time).ctx)
  {
    var line := "GET / HTTP/1.0";
    assert CrlfFree(line);
    FirstLineIs(line, "");
    assert line + CRLF + "" == "GET / HTTP/1.0\r\n";
    OldVersionLine(line);
  }

  lemma OldVersionLine(line: string)
    requires line == "GET / HTTP/1.0"
    ensures !ProcessLine(EMPTY, line).0 && ProcessLine(EMPTY, line).1.verb == Get
  {
    FindSpace("GET", "/ HTTP/1.0");
    assert line == "GET" + " " + "/ HTTP/1.0";
    FindSpace("/", "HTTP/1.0");
    assert "/ HTTP/1.0" == "/" + " " + "HTTP/1.0";
    assert "HTTP/1.0"[7] != VERSION[7];
  }
}

// http/HttpServer.cpp: requests parsed as the bytes come, one response each, and the closing decision.
// The methods are proved against LineServer, whose theorems then speak about HTTP.
module HttpServer {
  import opened Octets
  import opened NetBuffer
  import opened LineParser
  import opened HttpMessage
  import HR = HttpResponse
  import HttpContext
  import opened ConnectionOutput
  import opened TcpConnection
  import LS = LineServer

  const BAD_REQUEST: Bytes := "HTTP/1.1 400 Bad Request\r\n\r\n"

  /** `httpCallback_`: completes a response for a request. */
  type HttpCallback = (Request, HR.Reply) -> HR.Reply

  function GetHeader(req: Request, field: string): string {
    if field in req.headers then req.headers[field] else ""
  }

  function Answer(callback: HttpCallback, req: Request): HR.Reply {
    callback(req, HR.Reply(0, [], GetHeader(req, "Connection") == "close", map[], []))
  }

  const REFUSAL: HR.Reply := HR.Reply(400, "Bad Request", true, map[], "")

  lemma RefusalIsPrinted()
    ensures BAD_REQUEST == HR.StatusLine(REFUSAL) + CRLF
  {
    assert Decimal(4) == "4" && Decimal(40) == "40" && Decimal(400) == "400";
    assert HR.STATUS_START + "400" + HR.SPACE == "HTTP/1.1 400 ";
    assert BAD_REQUEST == "HTTP/1.1 400 " + "Bad Request" + CRLF + CRLF;
  }

  /** The refusal is a status line with code 400, and an empty line that ends it. */
  lemma BadRequestReads()
    ensures var cut := FirstLine(BAD_REQUEST);
            && cut.Line? && HR.IsStatusLine(cut.line, 400, "Bad Request")
            && FirstLine(cut.rest) == Line("", "")
  {
    RefusalIsPrinted();
    HR.LineWithoutCr(REFUSAL.statusMessage);
    HR.StatusLineReads(REFUSAL, CRLF);
    assert CRLF == "" + CRLF + "";
    FirstLineIs("", "");
  }

  predicate AsksToClose(req: Request) {
    "Connection" in req.headers && req.headers["Connection"] == "close"
  }

  /** Without a callback the answer has code 0, no reason and no body, and closes exactly if that was asked. */
  lemma UnsetCallbackAnswers(req: Request, r: LS.Response)
    requires Replies((q: Request, reply: HR.Reply) => reply, req, r)
    ensures r.close <==> AsksToClose(req)
    ensures var cut := FirstLine(r.text);
            && cut.Line? && HR.IsStatusLine(cut.line, 0, "")
            && cut.rest == HR.AfterStatus(HR.Reply(0, "", r.close, map[], ""), [])
  {
    var reply := HR.Reply(0, "", r.close, map[], "");
    var keys :| HR.Enumerates(keys, reply.headers) && r.text == HR.StatusLine(reply) + HR.AfterStatus(reply, keys);
    assert keys == [];
    HR.StatusLineReads(reply, HR.AfterStatus(reply, []));
  }

  /** The printed answer, with its header map walked in some order. */
  ghost predicate Replies(callback: HttpCallback, req: Request, r: LS.Response) {
    var reply := Answer(callback, req);
    && r.close == reply.close
    && exists keys :: HR.Enumerates(keys, reply.headers) && r.text == HR.StatusLine(reply) + HR.AfterStatus(reply, keys)
  }

  ghost function Http(callback: HttpCallback): LS.Service<Context> {
    LS.Service(LineTurn, FRESH, BAD_REQUEST, (ctx: Context, r: LS.Response) => Replies(callback, ctx.request, r))
  }

  method Respond(request: Request, callback: HttpCallback) returns (r: LS.Response)
    ensures Replies(callback, request, r)
  {
    var isClose := GetHeader(request, "Connection") == "close";
    var response := new HR.HttpResponse(isClose);
    response.Assign(callback(request, response.Value()));
    var buffer := new Buffer();
    ghost var keys := response.AppendToBuffer(buffer);
    r := LS.Response(buffer.Contents(), response.closeConnection);
    EmptyPrefix(HR.StatusLine(response.Value()));
  }

  method SendAnswer(connection: TcpConnection, r: LS.Response, kernel: LS.Kernel)
    requires connection.Valid() && LS.Sane(kernel)
    modifies connection, connection.outputBuffer, connection.outputBuffer.storage
    ensures connection.Valid() && fresh({connection.outputBuffer.storage} - {old(connection.outputBuffer.storage)})
    ensures connection.Value() == LS.Answered(old(connection.Value()), r, kernel)
  {
    connection.Send(r.text, kernel(r.text), true);
    if r.close {
      connection.Shutdown(true);
    }
  }

  method OnRequest(connection: TcpConnection, request: Request, callback: HttpCallback, kernel: LS.Kernel)
    returns (r: LS.Response)
    requires connection.Valid() && LS.Sane(kernel)
    modifies connection, connection.outputBuffer, connection.outputBuffer.storage
    ensures connection.Valid()
    ensures Replies(callback, request, r)
    ensures connection.Value() == LS.Answered(old(connection.Value()), r, kernel)
  {
    r := Respond(request, callback);
    SendAnswer(connection, r, kernel);
  }

  /** The connection as LineServer sees it. */
  ghost function Look(connection: TcpConnection): LS.View<Context>
    requires connection.Valid()
    reads connection, connection.inputBuffer, connection.inputBuffer.storage
    reads connection.outputBuffer, connection.outputBuffer.storage
    reads connection.context, connection.context.request
  {
    LS.View(connection.context.Value(), connection.inputBuffer.Contents(), connection.Value())
  }

  method Refuse(connection: TcpConnection, kernel: LS.Kernel)
    requires connection.Valid() && LS.Sane(kernel)
    modifies connection, connection.outputBuffer, connection.outputBuffer.storage
    ensures connection.Valid() && fresh({connection.outputBuffer.storage} - {old(connection.outputBuffer.storage)})
    ensures var v := old(Look(connection));
            Look(connection) == v.(output := LS.Answered(v.output, LS.Response(BAD_REQUEST, true), kernel))
  {
    SendAnswer(connection, LS.Response(BAD_REQUEST, true), kernel);
  }

  /** Answer the parsed request and start over. */
  method Reply(connection: TcpConnection, callback: HttpCallback, kernel: LS.Kernel) returns (r: LS.Response)
    requires connection.Valid() && LS.Sane(kernel)
    modifies connection, connection.context, connection.context.request
    modifies connection.outputBuffer, connection.outputBuffer.storage
    ensures connection.Valid()
    ensures var v := old(Look(connection));
            && Replies(callback, v.ctx.request, r)
            && Look(connection) == LS.View(FRESH, v.input, LS.Answered(v.output, r, kernel))
  {
    r := OnRequest(connection, connection.context.request.Value(), callback, kernel);
    connection.context.Reset();
  }

  /** What `onMessage` does after the parse. */
  ghost predicate Concludes(
    callback: HttpCallback, v: LS.View<Context>, status: Status, r: LS.Response, kernel: LS.Kernel,
    v': LS.View<Context>)
    requires LS.Sane(kernel)
  {
    match status
    case Incomplete => v' == v
    case Bad => v' == v.(output := LS.Answered(v.output, LS.Response(BAD_REQUEST, true), kernel))
    case Complete =>
      Replies(callback, v.ctx.request, r) && v' == LS.View(FRESH, v.input, LS.Answered(v.output, r, kernel))
  }

  method Conclude(
      connection: TcpConnection, isOk: bool, ghost status: Status, callback: HttpCallback, kernel: LS.Kernel)
    returns (r: LS.Response)
    requires connection.Valid() && LS.Sane(kernel)
    requires isOk == (status != Bad) && (status == Complete <==> connection.context.state == GotAll)
    modifies connection, connection.context, connection.context.request
    modifies connection.outputBuffer, connection.outputBuffer.storage
    ensures connection.Valid()
    ensures Concludes(callback, old(Look(connection)), status, r, kernel, Look(connection))
  {
    r := LS.Response("", false);
    if !isOk {
      Refuse(connection, kernel);
    }
    if connection.context.state == GotAll {
      r := Reply(connection, callback, kernel);
    }
  }

  /** `v'` is what LineServer makes of a message event on `v`. */
  ghost predicate Meets(
    callback: HttpCallback, v: LS.View<Context>, time: int, r: LS.Response, kernel: LS.Kernel, v': LS.View<Context>)
  {
    && LS.Sane(kernel)
    && LS.Suits(Http(callback), LS.Ending(Http(callback), v, time), r)
    && v' == LS.Handled(Http(callback), v, time, r, kernel)
  }

  lemma ConcludedIsHandled(
    callback: HttpCallback, v: LS.View<Context>, time: int, r: LS.Response, kernel: LS.Kernel, v': LS.View<Context>)
    requires LS.Sane(kernel) && Ready(v.ctx)
    requires var o := Parse(v.ctx, v.input, time);
             Concludes(callback, LS.View(o.ctx, o.rest, v.output), o.status, r, kernel, v')
    ensures Meets(callback, v, time, r, kernel, v')
  {
  }

  /** The parse, which touches the input side only. */
  method ParseInput(connection: TcpConnection, receiveTime: int) returns (isOk: bool)
    requires connection.Valid() && Ready(connection.context.Value())
    modifies connection.context, connection.context.request
    modifies connection.inputBuffer`readerIndex, connection.inputBuffer`writerIndex
    ensures connection.Valid()
    ensures var v := old(Look(connection));
            var o := Parse(v.ctx, v.input, receiveTime);
            && Look(connection) == LS.View(o.ctx, o.rest, v.output)
            && isOk == (o.status != Bad) && (o.status == Complete <==> connection.context.state == GotAll)
  {
    ParseStates(connection.context.Value(), connection.inputBuffer.Contents(), receiveTime);
    isOk := connection.context.ParseRequest(connection.inputBuffer, receiveTime);
  }

  /** One message event: parse what is there, then act on how that ended. */
  method OnMessage(connection: TcpConnection, receiveTime: int, callback: HttpCallback, kernel: LS.Kernel)
    returns (r: LS.Response)
    requires connection.Valid() && Ready(connection.context.Value()) && LS.Sane(kernel)
    modifies connection, connection.context, connection.context.request
    modifies connection.inputBuffer`readerIndex, connection.inputBuffer`writerIndex
    modifies connection.outputBuffer, connection.outputBuffer.storage
    ensures connection.Valid()
    ensures Meets(callback, old(Look(connection)), receiveTime, r, kernel, Look(connection))
  {
    ghost var v := Look(connection);
    ghost var status := Parse(v.ctx, v.input, receiveTime).status;
    var isOk := ParseInput(connection, receiveTime);
    r := Conclude(connection, isOk, status, callback, kernel);
    ConcludedIsHandled(callback, v, receiveTime, r, kernel, Look(connection));
  }
}

// The objects of http/HttpRequest.cpp and http/HttpContext.cpp, updated in place while the
// parser eats the input buffer, proved against the functions of HttpMessage.
module HttpContext {
  import opened Octets
  import opened LineParser
  import opened HttpMessage
  import opened NetBuffer

  class HttpRequest {
    var verb: Method
    var path: string
    var query: string
    var receiveTime: int
    var headers: map<string, string>

    function Value(): Request
      reads this
    {
      Request(verb, path, query, receiveTime, headers)
    }

    constructor ()
      ensures Value() == EMPTY
    {
      verb, path, query, receiveTime, headers := Invalid, "", "", 0, map[];
    }

    method SetMethod(token: string) returns (ok: bool)
      requires verb == Invalid
      modifies this`verb
      ensures verb == MethodOf(token)
      ensures (verb.Get? <==> token == "GET") && (verb.Post? <==> token == "POST") && (verb.Head? <==> token == "HEAD")
      ensures (verb.Put? <==> token == "PUT") && (verb.Delete? <==> token == "DELETE")
      ensures ok <==> token in {"GET", "POST", "HEAD", "PUT", "DELETE"}
    {
      if token == "GET" {
        verb := Get;
      } else if token == "POST" {
        verb := Post;
      } else if token == "HEAD" {
        verb := Head;
      } else if token == "PUT" {
        verb := Put;
      } else if token == "DELETE" {
        verb := Delete;
      } else {
        verb := Invalid;
      }
      ok := verb != Invalid;
    }

    /** The line's text before `colon` names the field; what follows, trimmed, is the value. */
    method AddHeader(line: string, colon: nat)
      requires colon < |line|
      modifies this`headers
      ensures headers == old(headers)[line[..colon] := Trim(line[colon + 1..])]
    {
      var field := line[..colon];
      var start := colon + 1;
      while start < |line| && IsSpace(line[start])
        invariant colon < start <= |line|
        invariant TrimLeft(line[start..]) == TrimLeft(line[colon + 1..])
      {
        assert line[start..][1..] == line[start + 1..];
        start := start + 1;
      }
      var value := line[start..];
      while value != [] && IsSpace(value[|value| - 1])
        invariant TrimRight(value) == Trim(line[colon + 1..])
      {
        value := value[..|value| - 1];
      }
      headers := headers[field := value];
    }

    method Swap(that: HttpRequest)
      requires that != this
      modifies this, that
      ensures Value() == old(that.Value()) && that.Value() == old(Value())
    {
      verb, that.verb := that.verb, verb;
      path, that.path := that.path, path;
      query, that.query := that.query, query;
      receiveTime, that.receiveTime := that.receiveTime, receiveTime;
      headers, that.headers := that.headers, headers;
    }
  }

  class HttpContext {
    var state: ParseState
    const request: HttpRequest

    function Value(): Context
      reads this, request
    {
      Context(state, request.Value())
    }

    constructor ()
      ensures Value() == FRESH && fresh(request)
    {
      state := ExpectRequestLine;
      request := new HttpRequest();
    }

    method Reset()
      modifies this, request
      ensures Value() == FRESH
    {
      state := ExpectRequestLine;
      var dummy := new HttpRequest();
      request.Swap(dummy);
    }

    method ProcessRequestLine(line: string) returns (succeeded: bool)
      requires request.verb == Invalid
      modifies request
      ensures (succeeded, request.Value()) == ProcessLine(old(request.Value()), line)
      ensures old(request.query) == "" ==> LineIsRead(line, succeeded, request.Value())
    {
      ghost var was := request.Value();
      succeeded := false;
      var space := Find(line, ' ');
      if space != |line| {
        var known := request.SetMethod(line[..space]);
        if known {
          var tail := line[space + 1..];
          var second := Find(tail, ' ');
          if second != |tail| {
            var target := tail[..second];
            var question := Find(target, '?');
            if question != |target| {
              request.path := target[..question];
              request.query := target[question..];
            } else {
              request.path := target;
            }
            succeeded := |tail[second + 1..]| == 8 && tail[second + 1..] == VERSION;
          }
        }
      }
      AnyLineIsRead(was, line);
    }

    /** The request-line branch of the loop, for a complete first line. */
    method TakeRequestLine(buffer: Buffer, crlf: nat, receiveTime: int) returns (isOk: bool)
      requires state == ExpectRequestLine && request.verb == Invalid && buffer.Valid()
      requires Search(buffer.Contents()) == crlf < buffer.ReadableBytes()
      modifies this, request, buffer`readerIndex, buffer`writerIndex
      ensures buffer.Valid() && buffer.ReadableBytes() <= old(buffer.ReadableBytes())
      ensures var goal := Parse(old(Value()), old(buffer.Contents()), receiveTime);
              if isOk then
                && Ready(Value()) && Parse(Value(), buffer.Contents(), receiveTime) == goal
                && buffer.ReadableBytes() + 2 <= old(buffer.ReadableBytes())
              else
                goal == Outcome(Bad, Value(), buffer.Contents())
    {
      ghost var ctx, bytes := Value(), buffer.Contents();
      isOk := ProcessRequestLine(buffer.Contents()[..crlf]);
      RequestLineStep(ctx, bytes, receiveTime, isOk, request.Value());
      if isOk {
        request.receiveTime := receiveTime;
        buffer.Retrieve(crlf + 2);
        state := ExpectHeader;
      }
    }

    /** The header branch of the loop, for a complete first line. */
    method TakeHeaderLine(buffer: Buffer, crlf: nat, receiveTime: int) returns (hasMore: bool)
      requires state == ExpectHeader && buffer.Valid()
      requires Search(buffer.Contents()) == crlf < buffer.ReadableBytes()
      modifies this, request, buffer`readerIndex, buffer`writerIndex
      ensures buffer.Valid() && buffer.ReadableBytes() + 2 <= old(buffer.ReadableBytes())
      ensures var goal := Parse(old(Value()), old(buffer.Contents()), receiveTime);
              if hasMore then
                Ready(Value()) && Parse(Value(), buffer.Contents(), receiveTime) == goal
              else
                goal == Outcome(Complete, Value(), buffer.Contents())
    {
      ghost var ctx, bytes := Value(), buffer.Contents();
      hasMore := StoreLine(buffer.Contents()[..crlf]);
      buffer.Retrieve(crlf + 2);
      assert buffer.Contents() == bytes[crlf + 2..];
      HeaderLineStep(ctx, bytes, receiveTime);
    }

    /** A line with a colon is a header field; any other ends the headers. */
    method StoreLine(line: string) returns (hasMore: bool)
      modifies this`state, request`headers
      ensures hasMore <==> Find(line, ':') < |line|
      ensures Value() == if hasMore then old(Value()).(request := WithHeader(old(request.Value()), line))
                         else old(Value()).(state := GotAll)
    {
      var colon := Find(line, ':');
      hasMore := colon != |line|;
      if hasMore {
        request.AddHeader(line, colon);
      } else {
        state := GotAll;
      }
    }

    /** One call eats all complete lines it may; the result is that of `Parse` on the bytes present. */
    method ParseRequest(buffer: Buffer, receiveTime: int) returns (isOk: bool)
      requires Ready(Value()) && buffer.Valid()
      modifies this, request, buffer`readerIndex, buffer`writerIndex
      ensures buffer.Valid()
      ensures var o := Parse(old(Value()), old(buffer.Contents()), receiveTime);
              isOk == (o.status != Bad) && Value() == o.ctx && buffer.Contents() == o.rest
    {
      ghost var goal := Parse(Value(), buffer.Contents(), receiveTime);
      isOk := true;
      var hasMore := true;
      while hasMore
        invariant buffer.Valid()
        invariant hasMore ==>
          (isOk && Ready(Value()) && Parse(Value(), buffer.Contents(), receiveTime) == goal)
        invariant !hasMore ==>
          (isOk == (goal.status != Bad) && Value() == goal.ctx && buffer.Contents() == goal.rest)
        decreases hasMore, buffer.ReadableBytes()
      {
        var crlf := buffer.FindCRLF();
        if state == ExpectRequestLine {
          if crlf.Some? {
            isOk := TakeRequestLine(buffer, crlf.value, receiveTime);
            hasMore := isOk;
          } else {
            hasMore := false;
          }
        } else if state == ExpectHeader {
          if crlf.Some? {
            hasMore := TakeHeaderLine(buffer, crlf.value, receiveTime);
          } else {
            hasMore := false;
          }
        }
      }
    }
  }
}

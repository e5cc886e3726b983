// Whole HTTP conversations on one connection: what the parser, the server and the output promise together.
module HttpExchange {
  import opened Octets
  import opened LineParser
  import opened HttpMessage
  import opened ConnectionOutput
  import LS = LineServer
  import HR = HttpResponse
  import opened HttpServer

  const NEW: Session<Context> := Session(FRESH, "", [], false)

  lemma {:induction false} SessionIsReady(chunks: seq<Chunk>)
    ensures var s := ServeAll(LineTurn, FRESH, NEW, chunks);
            !s.failed ==> Ready(s.ctx)
  {
    if chunks != [] {
      var init, chunk := chunks[..|chunks| - 1], chunks[|chunks| - 1];
      assert chunks == init + [chunk];
      SessionIsReady(init);
      ServeAllSnoc(LineTurn, FRESH, NEW, init, chunk);
      NextIsReady(ServeAll(LineTurn, FRESH, NEW, init), chunk);
    }
  }

  lemma NextIsReady(s: Session<Context>, chunk: Chunk)
    requires !s.failed ==> Ready(s.ctx)
    ensures var s' := Serve(LineTurn, FRESH, s, chunk);
            !s'.failed ==> Ready(s'.ctx)
  {
    if !s.failed {
      ParseStates(s.ctx, s.pending + chunk.data, chunk.time);
    }
  }

  /** Until the first request that fails, the parser is only re-entered in a state its loop handles,
      with no method set before a request line. */
  lemma ReentryIsLegal(callback: HttpCallback, steps: seq<LS.Step>)
    requires LS.LegalRun(Http(callback), steps)
    ensures var s := LS.Run(Http(callback), steps).session;
            !s.failed ==> Ready(s.ctx)
  {
    LS.RunIsSession(Http(callback), steps);
    SessionIsReady(LS.Chunks(steps));
  }

  // ---------- a stream of requests ----------

  ghost predicate AreRequests(messages: seq<Message>) {
    forall i :: 0 <= i < |messages| ==> WellFormed(messages[i]) && messages[i].rest == ""
  }

  function Printed(messages: seq<Message>): (texts: seq<string>)
    ensures |texts| == |messages|
    ensures forall i :: 0 <= i < |texts| ==> texts[i] == Print(messages[i])
  {
    if messages == [] then [] else [Print(messages[0])] + Printed(messages[1..])
  }

  lemma PrintedAreMessages(messages: seq<Message>)
    requires AreRequests(messages)
    ensures AreMessages(LineTurn, FRESH, Printed(messages))
    ensures forall i :: 0 <= i < |messages| ==>
              Eat(LineTurn, FRESH, Printed(messages)[i], 0).ctx == Context(GotAll, Meaning(messages[i], 0))
  {
    var texts := Printed(messages);
    forall i | 0 <= i < |messages|
      ensures IsMessage(LineTurn, FRESH, texts[i])
      ensures Eat(LineTurn, FRESH, texts[i], 0).ctx == Context(GotAll, Meaning(messages[i], 0))
    {
      PrintedMessageParses(messages[i], 0);
    }
  }

  lemma TimeOfMeaning(m: Message, ctx: Context)
    requires forall i :: 0 <= i < |m.headers| ==> ':' in m.headers[i]
    requires Untimed(ctx) == Untimed(Context(GotAll, Meaning(m, 0)))
    ensures ctx == Context(GotAll, Meaning(m, ctx.request.receiveTime))
  {
    var req := Meaning(m, 0);
    assert Meaning(m, ctx.request.receiveTime) == req.(receiveTime := ctx.request.receiveTime);
    assert Untimed(ctx).request == ctx.request.(receiveTime := 0);
  }

  /** Requests sent one after the other, cut into reads in any way, so far: exactly those that `Answered` counts are
      done, in order, each with the request it means. */
  lemma RequestsAreServed(messages: seq<Message>, chunks: seq<Chunk>)
    requires AreRequests(messages) && Joined(chunks) <= Stream(Printed(messages))
    ensures var s := ServeAll(LineTurn, FRESH, NEW, chunks);
            && !s.failed && |s.done| == Answered(Printed(messages), chunks)
            && forall i :: 0 <= i < |s.done| ==>
                 s.done[i] == Context(GotAll, Meaning(messages[i], s.done[i].request.receiveTime))
  {
    var texts := Printed(messages);
    PrintedAreMessages(messages);
    LineIgnoresTime();
    StreamIsAnswered(LineTurn, Untimed, FRESH, texts, chunks);
    var done := ServeAll(LineTurn, FRESH, NEW, chunks).done;
    forall i | 0 <= i < |done|
      ensures done[i] == Context(GotAll, Meaning(messages[i], done[i].request.receiveTime))
    {
      TimeOfMeaning(messages[i], done[i]);
    }
  }

  lemma {:induction false} JoinedPrefix(chunks: seq<Chunk>, k: nat)
    requires k <= |chunks|
    ensures Joined(chunks[..k]) <= Joined(chunks)
  {
    if k < |chunks| {
      var init := chunks[..|chunks| - 1];
      assert chunks == init + [chunks[|chunks| - 1]] && init[..k] == chunks[..k];
      JoinedSnoc(init, chunks[|chunks| - 1]);
      JoinedPrefix(init, k);
    } else {
      assert chunks[..k] == chunks;
    }
  }

  /** After every read all requests that have arrived are answered, if and only if no read holds the ends of two. */
  lemma RequestsKeepUpIff(messages: seq<Message>, chunks: seq<Chunk>)
    requires AreRequests(messages) && Joined(chunks) <= Stream(Printed(messages))
    ensures (forall k :: 0 <= k <= |chunks| ==>
               |ServeAll(LineTurn, FRESH, NEW, chunks[..k]).done|
               == Arrived(Printed(messages), |Joined(chunks[..k])|))
       <==> OneEndPerRead(Printed(messages), chunks)
  {
    var texts := Printed(messages);
    forall k | 0 <= k <= |chunks|
      ensures |ServeAll(LineTurn, FRESH, NEW, chunks[..k]).done| == Answered(texts, chunks[..k])
    {
      JoinedPrefix(chunks, k);
      RequestsAreServed(messages, chunks[..k]);
    }
    assert forall k :: 0 <= k <= |chunks| ==>
      (UpToDate(texts, chunks, k) <==>
        |ServeAll(LineTurn, FRESH, NEW, chunks[..k]).done| == Arrived(texts, |Joined(chunks[..k])|));
    assert messages != [] ==> |texts[0]| >= |CRLF|;
    KeepsUpIff(texts, chunks);
  }

  /** A whole request waits unread if and only if more have arrived than were answered. */
  lemma RequestWaitsIff(messages: seq<Message>, chunks: seq<Chunk>, time: int)
    requires AreRequests(messages) && Joined(chunks) <= Stream(Printed(messages))
    ensures var s := ServeAll(LineTurn, FRESH, NEW, chunks);
            && Ready(s.ctx)
            && (Parse(s.ctx, s.pending, time).status == Complete <==>
                  |s.done| < Arrived(Printed(messages), |Joined(chunks)|))
  {
    var texts := Printed(messages);
    RequestsAreServed(messages, chunks);
    SessionIsReady(chunks);
    PrintedAreMessages(messages);
    LineIgnoresTime();
    MessageWaitsIff(LineTurn, Untimed, FRESH, texts, chunks, time);
  }

  // ---------- a conversation ----------

  lemma ReplyIsNotEmpty(callback: HttpCallback, req: Request, r: LS.Response)
    requires Replies(callback, req, r)
    ensures r.text != []
  {
    assert |HR.StatusLine(Answer(callback, req))| >= |CRLF|;
  }

  /** The response answers the request that the message means, as it arrived at some time. */
  ghost predicate AnswersMessage(callback: HttpCallback, m: Message, r: LS.Response)
    requires forall i :: 0 <= i < |m.headers| ==> ':' in m.headers[i]
  {
    exists time :: Replies(callback, Meaning(m, time), r)
  }

  /** The last header line that names `Connection` says `close`. */
  ghost predicate SaysClose(headers: seq<string>)
    requires forall i :: 0 <= i < |headers| ==> ':' in headers[i]
  {
    exists i :: 0 <= i < |headers| && IsLast(headers, i) && ValueOf(headers[i]) == "close"
  }

  predicate IsLast(headers: seq<string>, i: nat)
    requires i < |headers|
  {
    HeaderField(headers[i]) == "Connection" && forall j :: i < j < |headers| ==> HeaderField(headers[j]) != "Connection"
  }

  lemma {:induction false} LastOrNone(headers: seq<string>, n: nat)
    requires n <= |headers| && forall j :: n <= j < |headers| ==> HeaderField(headers[j]) != "Connection"
    ensures (forall j :: 0 <= j < |headers| ==> HeaderField(headers[j]) != "Connection")
         || exists i :: 0 <= i < |headers| && IsLast(headers, i)
  {
    if n > 0 {
      if HeaderField(headers[n - 1]) == "Connection" {
        assert IsLast(headers, n - 1);
      } else {
        LastOrNone(headers, n - 1);
      }
    }
  }

  /** Under a callback that leaves the closing decision alone, a connection is closed after its answer exactly if the
      request's last `Connection` line says `close`. */
  lemma CloseIsAskedIff(callback: HttpCallback, m: Message, r: LS.Response)
    requires WellFormed(m) && AnswersMessage(callback, m, r)
    requires forall q, reply :: callback(q, reply).close == reply.close
    ensures r.close <==> SaysClose(m.headers)
  {
    LastOrNone(m.headers, |m.headers|);
    if i :| 0 <= i < |m.headers| && IsLast(m.headers, i) {
      LastHeaderWins(map[], m.headers, i);
      assert forall k :: 0 <= k < |m.headers| && IsLast(m.headers, k) ==> k == i;
    } else {
      UntouchedField(map[], m.headers, "Connection");
    }
  }

  /** A conversation, end to end: well-formed requests, sent one after the other and cut into reads in any way, over
      any run of reads, writes and the hang-up. As many are answered as `Answered` counts, which is all that have
      arrived if no read holds the ends of two; in order, each by the callback for what it means. The bytes written
      and waiting are these answers, up to the first that closes, if and only if each was sent with the earlier ones
      written out; and then the half-close comes once all of them are out. */
  lemma ConversationIsAnswered(callback: HttpCallback, steps: seq<LS.Step>, messages: seq<Message>)
    requires LS.LegalRun(Http(callback), steps)
    requires AreRequests(messages) && Joined(LS.Chunks(steps)) <= Stream(Printed(messages))
    ensures var o, responses := LS.Run(Http(callback), steps).output, LS.Responses(Http(callback), steps);
            var texts, chunks, kept := Printed(messages), LS.Chunks(steps), LS.Texts(LS.Kept(responses));
            && |responses| == Answered(texts, chunks)
            && (OneEndPerRead(texts, chunks) ==> |responses| == Arrived(texts, |Joined(chunks)|))
            && (forall i :: 0 <= i < |responses| ==> AnswersMessage(callback, messages[i], responses[i]))
            && (o.wire + o.backlog == kept <==> LS.Unhurried(Http(callback), steps))
            && (LS.Unhurried(Http(callback), steps) && o.state != Disconnected ==>
                  (o.halfCloses != [] <==> LS.SomeCloses(responses) && o.wire == kept))
  {
    var srv, texts, chunks := Http(callback), Printed(messages), LS.Chunks(steps);
    LS.RunIsSession(srv, steps);
    RequestsAreServed(messages, chunks);
    LS.MessagesAreAnswered(srv, steps);
    var done, responses := LS.Run(srv, steps).session.done, LS.Responses(srv, steps);
    forall i | 0 <= i < |responses|
      ensures AnswersMessage(callback, messages[i], responses[i]) && responses[i].text != []
    {
      assert srv.allowed(done[i], responses[i]);
      assert Replies(callback, Meaning(messages[i], done[i].request.receiveTime), responses[i]);
      ReplyIsNotEmpty(callback, done[i].request, responses[i]);
    }
    assert messages != [] ==> |texts[0]| >= |CRLF|;
    KeepsUpIff(texts, chunks);
    KeepsUpNow(texts, chunks);
    LS.ResponsesReachThePeerIff(srv, steps);
    if LS.Unhurried(srv, steps) {
      LS.HalfCloseFollowsResponses(srv, steps);
    }
  }

  /** What `onMessage` makes of a connection after a read is the next state of the run. */
  lemma MessageEventIsAStep(
    callback: HttpCallback, x: LS.Exchange<Context>, data: Bytes, time: int, r: LS.Response, kernel: LS.Kernel,
    v': LS.View<Context>)
    requires !x.session.failed && data != [] && x.output.state in {Connected, Disconnecting}
    requires Meets(callback, LS.Filled(x, data), time, r, kernel, v')
    ensures LS.Legal(Http(callback), x, LS.Read(data, time, r, kernel))
    ensures var x' := LS.Next(Http(callback), x, LS.Read(data, time, r, kernel));
            v' == LS.View(x'.session.ctx, x'.session.pending, x'.output)
  {
    LS.ReadServes(Http(callback), x, LS.Read(data, time, r, kernel));
  }

  // ---------- an answer that is lost ----------

  /** Whatever the callback: when the kernel does not take all of a first answer, the answer to a request that comes
      next is lost whole; the connection stays open unless that answer was to close it. */
  lemma AnswerIsLost(
    callback: HttpCallback, first: Message, second: Message, data1: Bytes, data2: Bytes,
    r1: LS.Response, r2: LS.Response, k1: LS.Kernel, k2: LS.Kernel, time: int)
    requires WellFormed(first) && first.rest == "" && data1 == Print(first)
    requires WellFormed(second) && second.rest == "" && data2 == Print(second)
    requires Replies(callback, Meaning(first, time), r1) && Replies(callback, Meaning(second, time), r2)
    requires LS.Sane(k1) && LS.Sane(k2) && !r1.close && k1(r1.text) < |r1.text|
    ensures var steps := [LS.Read(data1, time, r1, k1), LS.Read(data2, time, r2, k2)];
            && LS.LegalRun(Http(callback), steps)
            && LS.Responses(Http(callback), steps) == [r1, r2]
            && LS.Run(Http(callback), steps).output.accepted == r1.text
            && (!r2.close ==> LS.Run(Http(callback), steps).output.state == Connected)
  {
    PrintedMessageParses(first, time);
    PrintedMessageParses(second, time);
    ReplyIsNotEmpty(callback, Meaning(first, time), r1);
    assert |data1| >= |CRLF| && |data2| >= |CRLF|;
    LS.SecondResponseIsLost(Http(callback), data1, data2, time, r1, r2, k1, k2);
  }

  // ---------- pipelining ----------

  /** For any session and input: a whole request waits after a read, if and only if the read completed another one
      and what it left over begins with the text of a request. A line waits at all only in what a completed request
      left over. */
  lemma LeftoverWaitsIff(s: Session<Context>, chunk: Chunk, time: int)
    requires !s.failed && Ready(s.ctx) && !Serve(LineTurn, FRESH, s, chunk).failed
    ensures var s' := Serve(LineTurn, FRESH, s, chunk);
            var completed := |s'.done| == |s.done| + 1;
            && Ready(s'.ctx)
            && (FirstLine(s'.pending).NoLine? <==> !completed || CrlfFree(s'.pending))
            && (Parse(s'.ctx, s'.pending, time).status == Complete <==>
                  completed && exists m :: WellFormed(m) && Print(m) == s'.pending)
  {
    var s' := Serve(LineTurn, FRESH, s, chunk);
    ParseStates(s.ctx, s.pending + chunk.data, chunk.time);
    SearchUnique(s'.pending, |s'.pending|);
    GrammarIff(s'.pending, time);
  }

  /** So each read answers at most one request: requests sent in fewer reads than there are requests wait. */
  lemma {:induction false} OneAnswerPerRead(s: Session<Context>, chunks: seq<Chunk>)
    ensures |ServeAll(LineTurn, FRESH, s, chunks).done| <= |s.done| + |chunks|
    decreases |chunks|
  {
    if chunks != [] {
      OneAnswerPerRead(Serve(LineTurn, FRESH, s, chunks[0]), chunks[1..]);
    }
  }

  /** Two requests in one read: the second one waits, complete. */
  lemma PipelinedRequestWaits(first: Message, second: Message, time: int)
    requires WellFormed(first) && WellFormed(second) && first.rest == Print(second)
    ensures var s := Serve(LineTurn, FRESH, Session(FRESH, "", [], false), Chunk(Print(first), time));
            && s.done == [Context(GotAll, Meaning(first, time))] && s.pending == Print(second)
            && Parse(FRESH, s.pending, time).status == Complete
  {
    PrintedMessageParses(first, time);
    PrintedMessageParses(second, time);
    assert "" + Print(first) == Print(first);
  }
}

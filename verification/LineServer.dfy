// A server that answers each complete message of a line protocol, for any protocol: what one message
// event does to a connection, and whole runs of reads, writes and the hang-up. HttpServer is an instance.
module LineServer {
  import opened Octets
  import opened LineParser
  import opened ConnectionOutput

  datatype Response = Response(text: Bytes, close: bool)

  /** What `write(2)` returns for each message it may be given. */
  type Kernel = Bytes -> int

  ghost predicate Sane(kernel: Kernel) {
    forall m :: WriteResult(kernel(m), |m|)
  }

  /** `refusal` answers a malformed message; `allowed` says which responses answer a complete one. */
  datatype Service<!C> = Service(
    turn: (C, string, int) -> Turn<C>, blank: C, refusal: Bytes, allowed: (C, Response) -> bool)

  /** A connection as the server sees it: parser, unread input, output. */
  datatype View<C> = View(ctx: C, input: string, output: Output)

  /** Send, then half-close if the response says so. */
  ghost function Answered(o: Output, r: Response, kernel: Kernel): Output
    requires Sane(kernel)
  {
    var sent := Send(o, r.text, kernel(r.text));
    if r.close then Shutdown(sent) else sent
  }

  /** What follows the parse, which left `v`: refuse, answer and start over, or wait for more. */
  ghost function Concluded<C>(srv: Service<C>, v: View<C>, status: Status, r: Response, kernel: Kernel): View<C>
    requires Sane(kernel)
  {
    match status
    case Incomplete => v
    case Bad => v.(output := Answered(v.output, Response(srv.refusal, true), kernel))
    case Complete => View(srv.blank, v.input, Answered(v.output, r, kernel))
  }

  ghost function Ending<C>(srv: Service<C>, v: View<C>, time: int): Outcome<C> {
    Eat(srv.turn, v.ctx, v.input, time)
  }

  ghost predicate Suits<C>(srv: Service<C>, o: Outcome<C>, r: Response) {
    o.status == Complete ==> srv.allowed(o.ctx, r)
  }

  /** One message event. */
  ghost function Handled<C>(srv: Service<C>, v: View<C>, time: int, r: Response, kernel: Kernel): View<C>
    requires Sane(kernel)
  {
    var o := Ending(srv, v, time);
    Concluded(srv, View(o.ctx, o.rest, v.output), o.status, r, kernel)
  }

  // ---------- runs ----------

  /** `session.done` holds the messages that were answered, oldest first. */
  datatype Exchange<C> = Exchange(session: Session<C>, output: Output)

  datatype Step =
    | Read(data: Bytes, time: int, response: Response, kernel: Kernel)
    | Writable(n: int)
    | Hangup

  /** The server's view once the bytes of a read are in the input buffer. */
  ghost function Filled<C>(x: Exchange<C>, data: Bytes): View<C> {
    View(x.session.ctx, x.session.pending + data, x.output)
  }

  /** Reading stops at the first message that fails, and at the hang-up. */
  ghost predicate Legal<C>(srv: Service<C>, x: Exchange<C>, st: Step) {
    match st
    case Read(data, time, r, kernel) =>
      && !x.session.failed && data != [] && x.output.state in {Connected, Disconnecting}
      && Sane(kernel) && Suits(srv, Ending(srv, Filled(x, data), time), r)
    case Writable(n) => WriteResult(n, |x.output.backlog|)
    case Hangup => x.output.state in {Connected, Disconnecting}
  }

  ghost function Next<C>(srv: Service<C>, x: Exchange<C>, st: Step): Exchange<C>
    requires Legal(srv, x, st)
  {
    match st
    case Read(data, time, r, kernel) =>
      Exchange(Serve(srv.turn, srv.blank, x.session, Chunk(data, time)),
               Handled(srv, Filled(x, data), time, r, kernel).output)
    case Writable(n) => x.(output := HandleWrite(x.output, n))
    case Hangup => x.(output := HandleClose(x.output))
  }

  /** The session's step is what the server does to its parser and its input buffer. */
  lemma ReadServes<C>(srv: Service<C>, x: Exchange<C>, st: Step)
    requires st.Read? && Legal(srv, x, st)
    ensures var v, x' := Handled(srv, Filled(x, st.data), st.time, st.response, st.kernel), Next(srv, x, st);
            v == View(x'.session.ctx, x'.session.pending, x'.output)
  {
  }

  ghost function Opened<C>(srv: Service<C>): Exchange<C> {
    Exchange(Session(srv.blank, "", [], false), Established(START))
  }

  ghost predicate LegalRun<C>(srv: Service<C>, steps: seq<Step>)
    decreases |steps|, 0
  {
    steps == [] ||
    (var init := steps[..|steps| - 1];
     LegalRun(srv, init) && Legal(srv, Run(srv, init), steps[|steps| - 1]))
  }

  ghost function Run<C>(srv: Service<C>, steps: seq<Step>): Exchange<C>
    requires LegalRun(srv, steps)
    decreases |steps|, 1
  {
    if steps == [] then Opened(srv)
    else Next(srv, Run(srv, steps[..|steps| - 1]), steps[|steps| - 1])
  }

  /** What the reads of a run brought. */
  function Chunks(steps: seq<Step>): seq<Chunk> {
    if steps == [] then []
    else
      var st := steps[|steps| - 1];
      Chunks(steps[..|steps| - 1]) + (if st.Read? then [Chunk(st.data, st.time)] else [])
  }

  /** Writes and hang-ups do not disturb the parser. */
  lemma {:induction false} RunIsSession<C>(srv: Service<C>, steps: seq<Step>)
    requires LegalRun(srv, steps)
    ensures Run(srv, steps).session == ServeAll(srv.turn, srv.blank, Opened(srv).session, Chunks(steps))
  {
    if steps != [] {
      var init, st := steps[..|steps| - 1], steps[|steps| - 1];
      RunIsSession(srv, init);
      if st.Read? {
        ServeAllSnoc(srv.turn, srv.blank, Opened(srv).session, Chunks(init), Chunk(st.data, st.time));
      } else {
        assert Chunks(init) + [] == Chunks(init);
      }
    }
  }

  // ---------- the output is an output run ----------

  ghost function AnswerEvents(r: Response, kernel: Kernel): seq<Event> {
    if r.close then [SendNow(r.text, kernel(r.text)), Finish] else [SendNow(r.text, kernel(r.text))]
  }

  /** What a step hands to `send`: the answer to a message that completes, or the refusal. */
  ghost function Sent<C>(srv: Service<C>, x: Exchange<C>, st: Step): seq<Response> {
    if !st.Read? then []
    else
      match Ending(srv, Filled(x, st.data), st.time).status
      case Incomplete => []
      case Bad => [Response(srv.refusal, true)]
      case Complete => [st.response]
  }

  /** What a step does to the output side. */
  ghost function Events<C>(srv: Service<C>, x: Exchange<C>, st: Step): seq<Event> {
    match st
    case Writable(n) => [ConnectionOutput.Writable(n)]
    case Hangup => [Close]
    case Read(_, _, _, kernel) =>
      var sent := Sent(srv, x, st);
      if sent == [] then [] else AnswerEvents(sent[0], kernel)
  }

  lemma ReadSends<C>(srv: Service<C>, x: Exchange<C>, st: Step)
    requires st.Read? && Legal(srv, x, st)
    ensures var sent := Sent(srv, x, st);
            && |sent| <= 1
            && Next(srv, x, st).output == if sent == [] then x.output else Answered(x.output, sent[0], st.kernel)
  {
  }

  ghost function AllEvents<C>(srv: Service<C>, steps: seq<Step>): seq<Event>
    requires LegalRun(srv, steps)
  {
    if steps == [] then [Establish]
    else
      var init, st := steps[..|steps| - 1], steps[|steps| - 1];
      AllEvents(srv, init) + Events(srv, Run(srv, init), st)
  }

  /** `evs` is an on-loop run of the output that ends in `o`. */
  ghost predicate Yields(evs: seq<Event>, o: Output) {
    ConnectionOutput.LegalRun(evs) && OnLoop(evs) && ConnectionOutput.Run(evs) == o
  }

  lemma YieldsOne(evs: seq<Event>, o: Output, ev: Event)
    requires Yields(evs, o) && ConnectionOutput.Legal(o, ev) && Here(ev)
    ensures Yields(evs + [ev], ConnectionOutput.Next(o, ev))
  {
    RunSnoc(evs, ev);
  }

  lemma YieldsAnswer(evs: seq<Event>, o: Output, r: Response, kernel: Kernel)
    requires Yields(evs, o) && Sane(kernel)
    ensures Yields(evs + AnswerEvents(r, kernel), Answered(o, r, kernel))
  {
    var send := SendNow(r.text, kernel(r.text));
    YieldsOne(evs, o, send);
    if r.close {
      YieldsOne(evs + [send], ConnectionOutput.Next(o, send), Finish);
      assert evs + [send] + [Finish] == evs + [send, Finish];
    }
  }

  lemma YieldsStep<C>(srv: Service<C>, x: Exchange<C>, st: Step, evs: seq<Event>)
    requires Legal(srv, x, st) && Yields(evs, x.output)
    ensures Yields(evs + Events(srv, x, st), Next(srv, x, st).output)
  {
    match st
    case Writable(n) => YieldsOne(evs, x.output, ConnectionOutput.Writable(n));
    case Hangup => YieldsOne(evs, x.output, Close);
    case Read(_, _, _, kernel) =>
      ReadSends(srv, x, st);
      var sent := Sent(srv, x, st);
      if sent == [] {
        assert evs + [] == evs;
      } else {
        YieldsAnswer(evs, x.output, sent[0], kernel);
      }
  }

  /** Conservation and the order of the half-close hold of every run of the server. */
  lemma {:induction false} OutputIsARun<C>(srv: Service<C>, steps: seq<Step>)
    requires LegalRun(srv, steps)
    ensures Yields(AllEvents(srv, steps), Run(srv, steps).output)
    ensures Conserves(Run(srv, steps).output) && Ordered(Run(srv, steps).output)
  {
    if steps == [] {
      assert Yields([], START);
      YieldsOne([], START, Establish);
      assert [] + [Establish] == [Establish];
    } else {
      var init, st := steps[..|steps| - 1], steps[|steps| - 1];
      OutputIsARun(srv, init);
      YieldsStep(srv, Run(srv, init), st, AllEvents(srv, init));
    }
    OutputIsConserved(AllEvents(srv, steps));
    HalfCloseWaitsForData(AllEvents(srv, steps));
  }

  // ---------- one response for each message, in order ----------

  /** All that a run hands to `send`. */
  ghost function Responses<C>(srv: Service<C>, steps: seq<Step>): seq<Response>
    requires LegalRun(srv, steps)
  {
    if steps == [] then []
    else
      var init, st := steps[..|steps| - 1], steps[|steps| - 1];
      Responses(srv, init) + Sent(srv, Run(srv, init), st)
  }

  /** Each completed message has an allowed response, in order; a failed one has the refusal, last. */
  ghost predicate Answers<C>(srv: Service<C>, responses: seq<Response>, s: Session<C>) {
    && |responses| == |s.done| + (if s.failed then 1 else 0)
    && (forall i :: 0 <= i < |s.done| ==> srv.allowed(s.done[i], responses[i]))
    && (s.failed ==> responses[|s.done|] == Response(srv.refusal, true))
  }

  /** Over every run: one response for each message that completed, in order, each an allowed one. */
  lemma {:induction false} MessagesAreAnswered<C>(srv: Service<C>, steps: seq<Step>)
    requires LegalRun(srv, steps)
    ensures Answers(srv, Responses(srv, steps), Run(srv, steps).session)
  {
    if steps != [] {
      var init, st := steps[..|steps| - 1], steps[|steps| - 1];
      MessagesAreAnswered(srv, init);
      StepAnswers(srv, Run(srv, init), st, Responses(srv, init));
    }
  }

  lemma StepAnswers<C>(srv: Service<C>, x: Exchange<C>, st: Step, responses: seq<Response>)
    requires Legal(srv, x, st) && Answers(srv, responses, x.session)
    ensures Answers(srv, responses + Sent(srv, x, st), Next(srv, x, st).session)
  {
  }

  // ---------- which responses the peer gets ----------

  function Texts(responses: seq<Response>): Bytes {
    if responses == [] then [] else Texts(responses[..|responses| - 1]) + responses[|responses| - 1].text
  }

  predicate SomeCloses(responses: seq<Response>) {
    exists i :: 0 <= i < |responses| && responses[i].close
  }

  /** The responses up to the first that closes; nothing is sent after it. */
  function Kept(responses: seq<Response>): seq<Response> {
    if responses == [] then []
    else
      var init := responses[..|responses| - 1];
      if SomeCloses(init) then Kept(init) else Kept(init) + [responses[|responses| - 1]]
  }

  lemma KeptSnoc(responses: seq<Response>, r: Response)
    ensures Kept(responses + [r]) == if SomeCloses(responses) then Kept(responses) else Kept(responses) + [r]
    ensures SomeCloses(responses + [r]) <==> SomeCloses(responses) || r.close
    ensures Texts(responses + [r]) == Texts(responses) + r.text
  {
    var all := responses + [r];
    assert all[..|responses|] == responses && all[|responses|] == r;
    assert forall i :: 0 <= i < |responses| ==> all[i] == responses[i];
  }

  /** What `Kept` keeps: all, or a first part that ends with the only one in it that closes. */
  lemma {:induction false} KeptIsFirstPart(responses: seq<Response>)
    ensures var kept := Kept(responses);
            && kept <= responses
            && (forall i :: 0 <= i < |kept| - 1 ==> !kept[i].close)
            && (!SomeCloses(responses) ==> kept == responses)
            && (SomeCloses(responses) ==> kept != [] && kept[|kept| - 1].close)
  {
    if responses != [] {
      var init, last := responses[..|responses| - 1], responses[|responses| - 1];
      KeptIsFirstPart(init);
      assert responses == init + [last];
      KeptSnoc(init, last);
    }
  }

  predicate NonEmptyTexts(responses: seq<Response>) {
    forall i :: 0 <= i < |responses| ==> responses[i].text != []
  }

  /** Whenever a response is sent on an open connection, the earlier ones are written out. Reads that complete
      nothing may come at any time. */
  ghost predicate Unhurried<C>(srv: Service<C>, steps: seq<Step>)
    requires LegalRun(srv, steps)
  {
    steps == [] ||
    (var init, st := steps[..|steps| - 1], steps[|steps| - 1];
     && Unhurried(srv, init)
     && (Sent(srv, Run(srv, init), st) != [] && Run(srv, init).output.state == Connected ==>
           Run(srv, init).output.backlog == []))
  }

  /** The connection is closing exactly if some response closed it; none is taken in beyond the first that does. */
  ghost predicate Follows(o: Output, responses: seq<Response>) {
    && (o.state == Disconnected || o.state == if SomeCloses(responses) then Disconnecting else Connected)
    && (o.halfCloses != [] ==> SomeCloses(responses))
    && |o.accepted| <= |Texts(Kept(responses))|
  }

  /** An answer on an open connection is taken in exactly if nothing waits. */
  lemma AnswerIsTaken(o: Output, r: Response, kernel: Kernel)
    requires Sane(kernel) && Conserves(o) && Ordered(o) && o.state in {Connected, Disconnecting}
    ensures var o' := Answered(o, r, kernel);
            && o'.accepted == (if o.state == Connected && o.backlog == [] then o.accepted + r.text else o.accepted)
            && o'.state == (if o.state == Connected && !r.close then Connected else Disconnecting)
            && (o'.halfCloses != [] ==> o.halfCloses != [] || r.close)
  {
    SendConserves(o, r.text, kernel(r.text));
    var sent := Send(o, r.text, kernel(r.text));
    assert sent.state == o.state && sent.halfCloses == o.halfCloses;
    assert Shutdown(sent).accepted == sent.accepted;
  }

  lemma AnswerFollows(o: Output, responses: seq<Response>, r: Response, kernel: Kernel)
    requires Sane(kernel) && Conserves(o) && Ordered(o) && Follows(o, responses)
    requires o.state in {Connected, Disconnecting}
    ensures Follows(Answered(o, r, kernel), responses + [r])
    ensures Answered(o, r, kernel).accepted
         == if o.state == Connected && o.backlog == [] then o.accepted + r.text else o.accepted
    ensures Kept(responses + [r]) == if o.state == Connected then Kept(responses) + [r] else Kept(responses)
    ensures o.state == Connected ==> Texts(Kept(responses) + [r]) == Texts(Kept(responses)) + r.text
  {
    AnswerIsTaken(o, r, kernel);
    KeptSnoc(responses, r);
    KeptSnoc(Kept(responses), r);
  }

  lemma StepFollows<C>(srv: Service<C>, x: Exchange<C>, st: Step, responses: seq<Response>)
    requires Legal(srv, x, st) && Conserves(x.output) && Ordered(x.output) && Follows(x.output, responses)
    ensures Follows(Next(srv, x, st).output, responses + Sent(srv, x, st))
  {
    if st.Read? {
      ReadSends(srv, x, st);
    }
    var sent := Sent(srv, x, st);
    if sent == [] {
      assert responses + [] == responses;
    } else {
      AnswerFollows(x.output, responses, sent[0], st.kernel);
    }
  }

  lemma {:induction false} RunFollows<C>(srv: Service<C>, steps: seq<Step>)
    requires LegalRun(srv, steps)
    ensures Follows(Run(srv, steps).output, Responses(srv, steps))
  {
    if steps != [] {
      var init, st := steps[..|steps| - 1], steps[|steps| - 1];
      RunFollows(srv, init);
      OutputIsARun(srv, init);
      StepFollows(srv, Run(srv, init), st, Responses(srv, init));
    }
  }

  /** What one step adds to the messages taken in, and to those that should be. */
  lemma StepTakes<C>(srv: Service<C>, x: Exchange<C>, st: Step, responses: seq<Response>)
    requires Legal(srv, x, st) && Conserves(x.output) && Ordered(x.output) && Follows(x.output, responses)
    ensures var o, sent := x.output, Sent(srv, x, st);
            var added := if sent != [] && o.state == Connected then sent[0].text else [];
            && Next(srv, x, st).output.accepted == o.accepted + (if o.backlog == [] then added else [])
            && Texts(Kept(responses + sent)) == Texts(Kept(responses)) + added
  {
    if st.Read? {
      ReadSends(srv, x, st);
    }
    var sent := Sent(srv, x, st);
    if sent == [] {
      assert responses + [] == responses;
    } else {
      AnswerFollows(x.output, responses, sent[0], st.kernel);
    }
  }

  lemma {:induction false} ResponsesAreTaken<C>(srv: Service<C>, steps: seq<Step>)
    requires LegalRun(srv, steps)
    ensures var accepted, texts := Run(srv, steps).output.accepted, Texts(Kept(Responses(srv, steps)));
            && (Unhurried(srv, steps) ==> accepted == texts)
            && (!Unhurried(srv, steps) && NonEmptyTexts(Responses(srv, steps)) ==> |accepted| < |texts|)
  {
    if steps != [] {
      var init, st := steps[..|steps| - 1], steps[|steps| - 1];
      ResponsesAreTaken(srv, init);
      RunFollows(srv, init);
      OutputIsARun(srv, init);
      StepTakes(srv, Run(srv, init), st, Responses(srv, init));
      NonEmptyParts(Responses(srv, init), Sent(srv, Run(srv, init), st));
    }
  }

  lemma NonEmptyParts(a: seq<Response>, b: seq<Response>)
    ensures NonEmptyTexts(a + b) <==> NonEmptyTexts(a) && NonEmptyTexts(b)
  {
    assert forall i :: 0 <= i < |a| ==> (a + b)[i] == a[i];
    assert forall i :: 0 <= i < |b| ==> (a + b)[|a| + i] == b[i];
  }

  /** Over every run, what is written and what waits are exactly the responses, in order, up to the first that closes,
      if and only if each was sent with the earlier ones written out; otherwise some response was lost. */
  lemma ResponsesReachThePeerIff<C>(srv: Service<C>, steps: seq<Step>)
    requires LegalRun(srv, steps)
    ensures var o, responses := Run(srv, steps).output, Responses(srv, steps);
            && (Unhurried(srv, steps) ==> o.wire + o.backlog == Texts(Kept(responses)))
            && (NonEmptyTexts(responses) ==>
                  (o.wire + o.backlog == Texts(Kept(responses)) <==> Unhurried(srv, steps)))
  {
    OutputIsARun(srv, steps);
    ResponsesAreTaken(srv, steps);
  }

  /** Then the half-close stands after the last of them: it comes if and only if some response closes and all are out,
      unless the peer hangs up first. */
  lemma HalfCloseFollowsResponses<C>(srv: Service<C>, steps: seq<Step>)
    requires LegalRun(srv, steps) && Unhurried(srv, steps)
    ensures var o, responses := Run(srv, steps).output, Responses(srv, steps);
            var out := SomeCloses(responses) && o.wire == Texts(Kept(responses));
            && (o.halfCloses != [] ==> out && o.halfCloses == [|o.wire|])
            && (o.state != Disconnected ==> (o.halfCloses != [] <==> out))
  {
    OutputIsARun(srv, steps);
    ResponsesAreTaken(srv, steps);
    RunFollows(srv, steps);
    var o := Run(srv, steps).output;
    assert o.wire == o.wire + o.backlog ==> |o.backlog| == 0;
  }

  // ---------- when the connection is closed ----------

  predicate NoHangup(steps: seq<Step>) {
    forall i :: 0 <= i < |steps| ==> !steps[i].Hangup?
  }

  lemma {:induction false} DisconnectedIff<C>(srv: Service<C>, steps: seq<Step>)
    requires LegalRun(srv, steps)
    ensures Run(srv, steps).output.state == Disconnected <==> !NoHangup(steps)
  {
    if steps != [] {
      var init, st := steps[..|steps| - 1], steps[|steps| - 1];
      assert steps == init + [st];
      DisconnectedIff(srv, init);
      RunFollows(srv, init);
      OutputIsARun(srv, init);
      StepFollows(srv, Run(srv, init), st, Responses(srv, init));
      StepDisconnects(srv, Run(srv, init), st);
    }
  }

  lemma StepDisconnects<C>(srv: Service<C>, x: Exchange<C>, st: Step)
    requires Legal(srv, x, st) && Conserves(x.output) && Ordered(x.output)
    ensures Next(srv, x, st).output.state == Disconnected <==> x.output.state == Disconnected || st.Hangup?
  {
    if st.Read? {
      ReadSends(srv, x, st);
      var sent := Sent(srv, x, st);
      if sent != [] {
        AnswerIsTaken(x.output, sent[0], st.kernel);
      }
    }
  }

  /** Open unless some response closes or the peer hung up; a message that failed was refused in the last response. */
  ghost predicate OpenUnless<C>(srv: Service<C>, x: Exchange<C>, responses: seq<Response>, hungUp: bool) {
    && (x.output.state == Connected <==> !hungUp && forall i :: 0 <= i < |responses| ==> !responses[i].close)
    && (x.session.failed ==>
          && responses != [] && responses[|responses| - 1] == Response(srv.refusal, true)
          && x.output.state in {Disconnecting, Disconnected})
  }

  /** Over every run: a connection stays open if and only if no response closes and the peer does not hang up. A
      message that fails is refused in the last response, and that one closes. */
  lemma StaysOpenIff<C>(srv: Service<C>, steps: seq<Step>)
    requires LegalRun(srv, steps)
    ensures OpenUnless(srv, Run(srv, steps), Responses(srv, steps), exists i :: 0 <= i < |steps| && steps[i].Hangup?)
  {
    RunFollows(srv, steps);
    DisconnectedIff(srv, steps);
    MessagesAreAnswered(srv, steps);
    OpenIff(srv, Run(srv, steps), Responses(srv, steps));
  }

  lemma OpenIff<C>(srv: Service<C>, x: Exchange<C>, responses: seq<Response>)
    requires Follows(x.output, responses) && Answers(srv, responses, x.session)
    ensures OpenUnless(srv, x, responses, x.output.state == Disconnected)
  {
    if x.session.failed {
      RefusalIsLast(srv, responses, x.session);
    }
  }

  lemma RefusalIsLast<C>(srv: Service<C>, responses: seq<Response>, s: Session<C>)
    requires Answers(srv, responses, s) && s.failed
    ensures responses != [] && responses[|responses| - 1] == Response(srv.refusal, true) && SomeCloses(responses)
  {
    assert responses[|s.done|].close;
  }

  // ---------- a response that is lost ----------

  ghost predicate Whole<C>(srv: Service<C>, data: Bytes, time: int, r: Response) {
    var o := Eat(srv.turn, srv.blank, data, time);
    data != [] && o.status == Complete && o.rest == "" && srv.allowed(o.ctx, r)
  }

  lemma WholeMessageIsRead<C>(srv: Service<C>, x: Exchange<C>, data: Bytes, time: int, r: Response, kernel: Kernel)
    requires Whole(srv, data, time, r) && Sane(kernel)
    requires x.session.ctx == srv.blank && x.session.pending == "" && !x.session.failed && x.output.state == Connected
    ensures var st := Read(data, time, r, kernel);
            && Legal(srv, x, st) && Sent(srv, x, st) == [r]
            && var x' := Next(srv, x, st);
               && x'.session.ctx == srv.blank && x'.session.pending == "" && !x'.session.failed
               && x'.output == Answered(x.output, r, kernel)
  {
    assert "" + data == data;
  }

  /** A message whose response meets a backlog loses it, although the connection stays open. */
  lemma SecondResponseIsLost<C>(
    srv: Service<C>, data1: Bytes, data2: Bytes, time: int, r1: Response, r2: Response, k1: Kernel, k2: Kernel)
    requires Whole(srv, data1, time, r1) && Whole(srv, data2, time, r2) && Sane(k1) && Sane(k2)
    requires !r1.close && r1.text != [] && k1(r1.text) < |r1.text|
    ensures var steps := [Read(data1, time, r1, k1), Read(data2, time, r2, k2)];
            && LegalRun(srv, steps) && Responses(srv, steps) == [r1, r2]
            && Run(srv, steps).output.accepted == r1.text
            && (!r2.close ==> Run(srv, steps).output.state == Connected)
  {
    var first, second := Read(data1, time, r1, k1), Read(data2, time, r2, k2);
    WholeMessageIsRead(srv, Opened(srv), data1, time, r1, k1);
    FirstIsTaken(r1, k1);
    WholeMessageIsRead(srv, Next(srv, Opened(srv), first), data2, time, r2, k2);
    RunOfTwo(srv, first, second);
    assert [r1] + [r2] == [r1, r2];
  }

  lemma FirstIsTaken(r: Response, kernel: Kernel)
    requires Sane(kernel) && !r.close && r.text != [] && kernel(r.text) < |r.text|
    ensures var o := Answered(Established(START), r, kernel);
            o.state == Connected && o.accepted == r.text && o.backlog != []
  {
    assert [] + r.text == r.text;
  }

  lemma RunOfTwo<C>(srv: Service<C>, a: Step, b: Step)
    requires Legal(srv, Opened(srv), a) && Legal(srv, Next(srv, Opened(srv), a), b)
    ensures var x := Next(srv, Opened(srv), a);
            && LegalRun(srv, [a, b]) && Run(srv, [a, b]) == Next(srv, x, b)
            && Responses(srv, [a, b]) == Sent(srv, Opened(srv), a) + Sent(srv, x, b)
  {
    assert LegalRun(srv, []) && Responses(srv, []) == [];
    RunStep(srv, [], a);
    assert [] + [a] == [a] && [a] + [b] == [a, b];
    assert [] + Sent(srv, Opened(srv), a) == Sent(srv, Opened(srv), a);
    RunStep(srv, [a], b);
  }

  lemma RunStep<C>(srv: Service<C>, steps: seq<Step>, st: Step)
    requires LegalRun(srv, steps) && Legal(srv, Run(srv, steps), st)
    ensures LegalRun(srv, steps + [st]) && Run(srv, steps + [st]) == Next(srv, Run(srv, steps), st)
    ensures Responses(srv, steps + [st]) == Responses(srv, steps) + Sent(srv, Run(srv, steps), st)
  {
    assert (steps + [st])[..|steps|] == steps;
  }
}

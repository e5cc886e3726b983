// The output side of net/TcpConnection.cpp, on values: partial writes, the backlog, and the deferred half-close,
// called on the loop's own thread and from other threads.
module ConnectionOutput {
  import opened Octets

  datatype State = Disconnected | Connecting | Connected | Disconnecting

  /** A functor that a call from another thread queued on the connection's loop. */
  datatype Later = LaterSend(message: Bytes) | LaterHalfClose

  /** `wire` is what the kernel took, `accepted` the messages taken in; each half-close records the wire length.
      `owes` counts the threads whose `shutdown` has stored the state and has yet to queue its functor; `closed` says
      that `handleClose` ran. */
  datatype Output = Output(
    state: State, backlog: Bytes, writing: bool, wire: Bytes, accepted: Bytes, halfCloses: seq<nat>,
    queued: seq<Later>, owes: nat, closed: bool)

  const START: Output := Output(Connecting, [], false, [], [], [], [], 0, false)

  /** `write(2)` of `len` bytes returns an error or a count. */
  predicate WriteResult(n: int, len: nat) {
    -1 <= n <= len
  }

  function Count(n: int): nat {
    if n < 0 then 0 else n
  }

  function Established(o: Output): Output {
    o.(state := Connected)
  }

  function SendInLoop(o: Output, message: Bytes, n: int): Output
    requires WriteResult(n, |message|)
  {
    if !o.writing && o.backlog == [] then
      o.(wire := o.wire + message[..Count(n)],
         backlog := message[Count(n)..],
         writing := Count(n) < |message|,
         accepted := o.accepted + message)
    else
      o
  }

  function Send(o: Output, message: Bytes, n: int): Output
    requires WriteResult(n, |message|)
  {
    if o.state == Connected then SendInLoop(o, message, n) else o
  }

  function ShutdownInLoop(o: Output): Output {
    if !o.writing then o.(halfCloses := o.halfCloses + [|o.wire|]) else o
  }

  function Shutdown(o: Output): Output {
    if o.state == Connected then ShutdownInLoop(o.(state := Disconnecting)) else o
  }

  function Queue(o: Output, functor: Later): Output {
    o.(queued := o.queued + [functor])
  }

  /** The loop runs the oldest functor; a send no longer looks at the state. */
  function RunQueued(o: Output, n: int): Output
    requires o.queued != [] && (o.queued[0].LaterSend? ==> WriteResult(n, |o.queued[0].message|))
  {
    var o' := o.(queued := o.queued[1..]);
    match o.queued[0]
    case LaterSend(message) => SendInLoop(o', message, n)
    case LaterHalfClose => ShutdownInLoop(o')
  }

  function HandleWrite(o: Output, n: int): Output
    requires WriteResult(n, |o.backlog|)
  {
    if !o.writing || n <= 0 then
      o
    else
      var o' := o.(wire := o.wire + o.backlog[..n], backlog := o.backlog[n..]);
      if o'.backlog != [] then o'
      else if o.state == Disconnecting then ShutdownInLoop(o'.(writing := false))
      else o'.(writing := false)
  }

  function HandleClose(o: Output): Output {
    o.(state := Disconnected, writing := false, closed := true)
  }

  // ---------- runs ----------

  /** `SendNow`, `Finish`: calls on the loop's thread. `QueueSend`: another thread's `send`, which found the state
      `Connected` at some earlier moment. `FinishElsewhere`, `QueueHalfClose`: another thread's `shutdown`, which also
      tested the state earlier, stores it now, and then queues its functor. */
  datatype Event =
    | Establish
    | SendNow(message: Bytes, n: int)
    | QueueSend(message: Bytes)
    | Functor(n: int)
    | Writable(n: int)
    | Finish
    | FinishElsewhere
    | QueueHalfClose
    | Close

  predicate Legal(o: Output, ev: Event) {
    match ev
    case Establish => o.state == Connecting
    case SendNow(message, n) => WriteResult(n, |message|)
    case QueueSend(_) => o.state != Connecting
    case Functor(n) => o.queued != [] && (o.queued[0].LaterSend? ==> WriteResult(n, |o.queued[0].message|))
    case Writable(n) => WriteResult(n, |o.backlog|)
    case Finish => true
    case FinishElsewhere => o.state != Connecting
    case QueueHalfClose => o.owes > 0
    case Close => o.state in {Connected, Disconnecting}
  }

  function Next(o: Output, ev: Event): Output
    requires Legal(o, ev)
  {
    match ev
    case Establish => Established(o)
    case SendNow(message, n) => Send(o, message, n)
    case QueueSend(message) => Queue(o, LaterSend(message))
    case Functor(n) => RunQueued(o, n)
    case Writable(n) => HandleWrite(o, n)
    case Finish => Shutdown(o)
    case FinishElsewhere => o.(state := Disconnecting, owes := o.owes + 1)
    case QueueHalfClose => Queue(o, LaterHalfClose).(owes := o.owes - 1)
    case Close => HandleClose(o)
  }

  ghost predicate LegalRun(evs: seq<Event>)
    decreases |evs|, 0
  {
    evs == [] ||
    (LegalRun(evs[..|evs| - 1]) && Legal(Run(evs[..|evs| - 1]), evs[|evs| - 1]))
  }

  ghost function Run(evs: seq<Event>): Output
    requires LegalRun(evs)
    decreases |evs|, 1
  {
    if evs == [] then START else Next(Run(evs[..|evs| - 1]), evs[|evs| - 1])
  }

  lemma RunSnoc(evs: seq<Event>, ev: Event)
    requires LegalRun(evs) && Legal(Run(evs), ev)
    ensures LegalRun(evs + [ev]) && Run(evs + [ev]) == Next(Run(evs), ev)
  {
    assert (evs + [ev])[..|evs|] == evs;
  }

  // ---------- conservation ----------

  /** The message an event takes in: one that arrives while connected, or as a functor, with nothing waiting. */
  function Takes(o: Output, ev: Event): Bytes
    requires Legal(o, ev)
  {
    if o.backlog != [] then []
    else if ev.SendNow? && o.state == Connected then ev.message
    else if ev.Functor? && o.queued[0].LaterSend? then o.queued[0].message
    else []
  }

  ghost function Taken(evs: seq<Event>): Bytes
    requires LegalRun(evs)
  {
    if evs == [] then []
    else Taken(evs[..|evs| - 1]) + Takes(Run(evs[..|evs| - 1]), evs[|evs| - 1])
  }

  ghost predicate Conserves(o: Output) {
    && o.wire + o.backlog == o.accepted
    && (o.writing ==> o.backlog != [])
    && (!o.closed && o.backlog != [] ==> o.writing)
    && (o.state == Disconnected ==> o.closed)
    && (o.closed ==> o.state in {Disconnecting, Disconnected})
  }

  lemma NextConserves(o: Output, ev: Event)
    requires Conserves(o) && Legal(o, ev)
    ensures Conserves(Next(o, ev))
    ensures Next(o, ev).accepted == o.accepted + Takes(o, ev)
  {
    match ev
    case SendNow(message, n) => SendConserves(o, message, n);
    case Functor(n) =>
      if o.queued[0].LaterSend? {
        SendConserves(o.(queued := o.queued[1..]), o.queued[0].message, n);
      }
    case Writable(n) =>
      if o.writing && n > 0 {
        assert o.backlog == o.backlog[..n] + o.backlog[n..];
        assert o.wire + o.backlog[..n] + o.backlog[n..] == o.wire + o.backlog;
      }
    case _ =>
  }

  lemma SendConserves(o: Output, message: Bytes, n: int)
    requires Conserves(o) && WriteResult(n, |message|)
    ensures Conserves(SendInLoop(o, message, n))
    ensures SendInLoop(o, message, n).accepted == o.accepted + (if o.backlog == [] then message else [])
  {
    if !o.writing && o.backlog == [] {
      assert message == message[..Count(n)] + message[Count(n)..];
      assert o.wire == o.accepted;
    }
  }

  /** Over every run, calls from any thread included: what was written, and then what waits, is exactly the messages
      taken in, in order; and until the close, write interest is on exactly while something waits. */
  lemma {:induction false} OutputIsConserved(evs: seq<Event>)
    requires LegalRun(evs)
    ensures Conserves(Run(evs)) && Run(evs).accepted == Taken(evs)
    ensures Run(evs).wire + Run(evs).backlog == Taken(evs)
  {
    if evs != [] {
      var init, ev := evs[..|evs| - 1], evs[|evs| - 1];
      OutputIsConserved(init);
      NextConserves(Run(init), ev);
    }
  }

  // ---------- the wire holds what the kernel took ----------

  /** A first write puts as many bytes on the wire as the kernel says, the first ones; the rest waits behind them. */
  lemma SendWrites(o: Output, message: Bytes, n: int)
    requires WriteResult(n, |message|) && o.state == Connected && !o.writing && o.backlog == []
    ensures var o' := Send(o, message, n);
            && |o'.wire| == |o.wire| + (if n > 0 then n else 0)
            && o'.wire + o'.backlog == o.wire + message
            && (o'.writing <==> o'.backlog != [])
  {
    CutAt(o.wire, message, Count(n));
  }

  lemma CutAt(wire: Bytes, message: Bytes, n: nat)
    requires n <= |message|
    ensures |wire + message[..n]| == |wire| + n && wire + message[..n] + message[n..] == wire + message
  {
    assert message == message[..n] + message[n..];
  }

  lemma HandleWriteWrites(o: Output, n: int)
    requires WriteResult(n, |o.backlog|) && o.writing
    ensures var o' := HandleWrite(o, n);
            && |o'.wire| == |o.wire| + (if n > 0 then n else 0)
            && o'.wire + o'.backlog == o.wire + o.backlog
  {
    if n > 0 {
      CutAt(o.wire, o.backlog, n);
    }
  }

  /** `write(2)` is called by a first send, on or from behind the queue, with nothing waiting, and by a write event. */
  predicate CallsWrite(o: Output, ev: Event)
    requires Legal(o, ev)
  {
    || (ev.SendNow? && o.state == Connected && !o.writing && o.backlog == [])
    || (ev.Functor? && o.queued[0].LaterSend? && !o.writing && o.backlog == [])
    || (ev.Writable? && o.writing)
  }

  /** The sum of what the writes of a run returned, errors counting nothing. */
  ghost function WriteTotal(evs: seq<Event>): nat
    requires LegalRun(evs)
  {
    if evs == [] then 0
    else
      var init, ev := evs[..|evs| - 1], evs[|evs| - 1];
      WriteTotal(init) + (if CallsWrite(Run(init), ev) && ev.n > 0 then ev.n else 0)
  }

  /** Over every run: the wire holds exactly as many bytes as the kernel took in all the writes made. */
  lemma {:induction false} WireIsWhatWasWritten(evs: seq<Event>)
    requires LegalRun(evs)
    ensures |Run(evs).wire| == WriteTotal(evs)
  {
    if evs != [] {
      var init, ev := evs[..|evs| - 1], evs[|evs| - 1];
      WireIsWhatWasWritten(init);
      NextWrites(Run(init), ev);
    }
  }

  lemma NextWrites(o: Output, ev: Event)
    requires Legal(o, ev)
    ensures |Next(o, ev).wire| == |o.wire| + (if CallsWrite(o, ev) && ev.n > 0 then ev.n else 0)
  {
    if ev.Writable? && o.writing {
      HandleWriteWrites(o, ev.n);
    }
  }

  // ---------- queued functors ----------

  /** The functor that an event queues. */
  function Queues(ev: Event): seq<Later> {
    match ev
    case QueueSend(message) => [LaterSend(message)]
    case QueueHalfClose => [LaterHalfClose]
    case _ => []
  }

  ghost function AllQueued(evs: seq<Event>): seq<Later>
  {
    if evs == [] then [] else AllQueued(evs[..|evs| - 1]) + Queues(evs[|evs| - 1])
  }

  /** The functors that the loop has run. */
  ghost function AllRun(evs: seq<Event>): seq<Later>
    requires LegalRun(evs)
  {
    if evs == [] then []
    else
      var init, ev := evs[..|evs| - 1], evs[|evs| - 1];
      AllRun(init) + (if ev.Functor? then [Run(init).queued[0]] else [])
  }

  /** Over every run: the functors run so far, and then those that wait, are all that were queued, in that order. */
  lemma {:induction false} FunctorsAreFifo(evs: seq<Event>)
    requires LegalRun(evs)
    ensures AllRun(evs) + Run(evs).queued == AllQueued(evs)
  {
    if evs != [] {
      var init, ev := evs[..|evs| - 1], evs[|evs| - 1];
      FunctorsAreFifo(init);
      NextQueues(Run(init), ev);
      Regroup(AllRun(init), Run(init).queued, Queues(ev));
    }
  }

  lemma NextQueues(o: Output, ev: Event)
    requires Legal(o, ev)
    ensures if ev.Functor? then [o.queued[0]] + Next(o, ev).queued == o.queued
            else Next(o, ev).queued == o.queued + Queues(ev)
  {
  }

  /** A message sent behind a backlog is dropped whole: it is taken in exactly when nothing waits. */
  lemma SendIsTakenIff(o: Output, message: Bytes, n: int)
    requires Conserves(o) && o.state == Connected && WriteResult(n, |message|) && message != []
    ensures Send(o, message, n).accepted == o.accepted + message <==> o.backlog == []
  {
    assert |o.accepted + message| > |o.accepted|;
  }

  /** Dropping is real: any second message right after a partial write never reaches the peer. */
  lemma SecondMessageIsDropped(first: Bytes, second: Bytes)
    requires |first| >= 2 && second != []
    ensures var evs := [Establish] + [SendNow(first, 1)] + [SendNow(second, |second|)] + [Writable(|first| - 1)];
            && LegalRun(evs) && OnLoop(evs)
            && Run(evs).wire == first && Run(evs).backlog == []
  {
    assert LegalRun([]);
    RunSnoc([], Establish);
    assert [] + [Establish] == [Establish];
    RunSnoc([Establish], SendNow(first, 1));
    RunSnoc([Establish] + [SendNow(first, 1)], SendNow(second, |second|));
    var evs := [Establish] + [SendNow(first, 1)] + [SendNow(second, |second|)];
    assert Run(evs).backlog == first[1..] && Run(evs).wire == [] + first[..1];
    RunSnoc(evs, Writable(|first| - 1));
    assert first[..1] + first[1..] == first;
  }

  // ---------- half-close ----------

  /** What holds as long as no functor came too late: every half-close so far stands at the end of all data. */
  ghost predicate Tidy(o: Output) {
    && (o.state == Connecting ==> o.queued == [] && o.backlog == [] && o.wire == [])
    && (o.state in {Connecting, Connected} ==> o.halfCloses == [] && o.owes == 0 && LaterHalfClose !in o.queued)
    && (o.halfCloses != [] ==> o.backlog == [] && forall i :: 0 <= i < |o.halfCloses| ==> o.halfCloses[i] == |o.wire|)
    && (o.state == Disconnecting && o.owes == 0 && LaterHalfClose !in o.queued && o.backlog == [] ==>
          o.halfCloses != [])
  }

  /** A functor that takes a message in after a half-close. */
  predicate LateSend(o: Output, ev: Event)
    requires Legal(o, ev)
  {
    && ev.Functor? && o.queued[0].LaterSend? && o.queued[0].message != []
    && o.halfCloses != [] && !o.writing && o.backlog == []
  }

  /** A functor that half-closes over a backlog, which only the close can have left without write interest. */
  predicate EarlyHalfClose(o: Output, ev: Event)
    requires Legal(o, ev)
  {
    ev.Functor? && o.queued[0].LaterHalfClose? && !o.writing && o.backlog != []
  }

  predicate Strays(o: Output, ev: Event)
    requires Legal(o, ev)
  {
    LateSend(o, ev) || EarlyHalfClose(o, ev)
  }

  ghost predicate SomeStrays(evs: seq<Event>)
    requires LegalRun(evs)
  {
    evs != [] &&
    (SomeStrays(evs[..|evs| - 1]) || Strays(Run(evs[..|evs| - 1]), evs[|evs| - 1]))
  }

  /** Some accepted byte is written, or waits, after the first half-close. */
  predicate Overrun(o: Output) {
    o.halfCloses != [] && o.halfCloses[0] < |o.accepted|
  }

  lemma NextTidy(o: Output, ev: Event)
    requires Conserves(o) && Tidy(o) && Legal(o, ev) && !Strays(o, ev)
    ensures Tidy(Next(o, ev))
  {
    if ev.Functor? {
      assert o.queued == [o.queued[0]] + o.queued[1..];
    }
  }

  lemma StrayOverruns(o: Output, ev: Event)
    requires Conserves(o) && Tidy(o) && Legal(o, ev) && Strays(o, ev)
    ensures Overrun(Next(o, ev))
  {
    NextConserves(o, ev);
    assert |o.accepted| == |o.wire| + |o.backlog|;
  }

  lemma OverrunStays(o: Output, ev: Event)
    requires Conserves(o) && Overrun(o) && Legal(o, ev)
    ensures Overrun(Next(o, ev))
  {
    NextConserves(o, ev);
  }

  /** Over every run: all that was taken in lies before the first half-close if and only if no functor took a message
      in after a half-close, and none half-closed over a backlog. Then each half-close stands at the end of the data. */
  lemma {:induction false} HalfCloseKeepsOrderIff(evs: seq<Event>)
    requires LegalRun(evs)
    ensures Overrun(Run(evs)) <==> SomeStrays(evs)
    ensures !SomeStrays(evs) ==> Tidy(Run(evs))
    ensures !SomeStrays(evs) ==> forall h <- Run(evs).halfCloses :: h == |Taken(evs)| && Run(evs).wire == Taken(evs)
  {
    if evs != [] {
      var init, ev := evs[..|evs| - 1], evs[|evs| - 1];
      HalfCloseKeepsOrderIff(init);
      OutputIsConserved(init);
      if SomeStrays(init) {
        OverrunStays(Run(init), ev);
      } else if Strays(Run(init), ev) {
        StrayOverruns(Run(init), ev);
      } else {
        NextTidy(Run(init), ev);
      }
    }
    OutputIsConserved(evs);
  }

  /** A half-close after the first: a queued one, or that of `handleWrite` behind a late send. */
  predicate Repeats(o: Output, ev: Event)
    requires Legal(o, ev)
  {
    && o.halfCloses != []
    && ((ev.Functor? && o.queued[0].LaterHalfClose? && !o.writing)
        || (ev.Writable? && o.writing && ev.n > 0 && ev.n == |o.backlog| && o.state == Disconnecting))
  }

  ghost predicate SomeRepeats(evs: seq<Event>)
    requires LegalRun(evs)
  {
    evs != [] &&
    (SomeRepeats(evs[..|evs| - 1]) || Repeats(Run(evs[..|evs| - 1]), evs[|evs| - 1]))
  }

  /** Nobody has asked for a half-close yet. */
  ghost predicate Unasked(o: Output) {
    o.halfCloses == [] && o.owes == 0 && LaterHalfClose !in o.queued
  }

  lemma NextRepeats(o: Output, ev: Event)
    requires Legal(o, ev) && (o.state in {Connecting, Connected} ==> Unasked(o))
    ensures var o' := Next(o, ev);
            && (o'.state in {Connecting, Connected} ==> Unasked(o'))
            && |o.halfCloses| <= |o'.halfCloses|
            && (|o.halfCloses| <= 1 ==> (|o'.halfCloses| <= 1 <==> !Repeats(o, ev)))
  {
  }

  /** Over every run, calls from any thread included: the half-close happens at most once if and only if no queued one
      runs after one, and no write event empties the backlog of a connection shutting down after one. */
  lemma {:induction false} HalfCloseOnceIff(evs: seq<Event>)
    requires LegalRun(evs)
    ensures |Run(evs).halfCloses| <= 1 <==> !SomeRepeats(evs)
    ensures Run(evs).state in {Connecting, Connected} ==> Unasked(Run(evs))
  {
    if evs != [] {
      HalfCloseOnceIff(evs[..|evs| - 1]);
      NextRepeats(Run(evs[..|evs| - 1]), evs[|evs| - 1]);
    }
  }

  // ---------- on the loop's own thread ----------

  predicate Here(ev: Event) {
    !ev.QueueSend? && !ev.Functor? && !ev.FinishElsewhere? && !ev.QueueHalfClose?
  }

  /** Every call comes from the loop's own thread. */
  predicate OnLoop(evs: seq<Event>) {
    forall i :: 0 <= i < |evs| ==> Here(evs[i])
  }

  ghost predicate Ordered(o: Output) {
    && Tidy(o) && o.queued == [] && o.owes == 0
    && |o.halfCloses| <= 1
    && (o.closed ==> o.state == Disconnected && !o.writing)
  }

  lemma NextOrdered(o: Output, ev: Event)
    requires Conserves(o) && Ordered(o) && Legal(o, ev) && Here(ev)
    ensures Ordered(Next(o, ev))
  {
  }

  /** Over every on-loop run the half-close happens at most once, after everything taken in was written,
      and no byte follows it; while shutting down it has happened exactly if nothing waits. */
  lemma {:induction false} HalfCloseWaitsForData(evs: seq<Event>)
    requires LegalRun(evs) && OnLoop(evs)
    ensures var o := Run(evs);
            && Ordered(o)
            && |o.halfCloses| <= 1
            && (o.halfCloses != [] ==> o.halfCloses[0] == |o.wire| && o.wire == Taken(evs))
            && (o.state == Disconnecting ==> (o.halfCloses != [] <==> o.wire == Taken(evs)))
  {
    if evs != [] {
      var init, ev := evs[..|evs| - 1], evs[|evs| - 1];
      HalfCloseWaitsForData(init);
      OutputIsConserved(init);
      NextOrdered(Run(init), ev);
    }
    OutputIsConserved(evs);
    assert Run(evs).wire == Taken(evs) ==> |Run(evs).backlog| == 0;
  }

  lemma NextUnasked(o: Output, ev: Event)
    requires Legal(o, ev) && ev != Finish && ev != FinishElsewhere && Unasked(o) && o.state != Disconnecting
    ensures Unasked(Next(o, ev)) && Next(o, ev).state != Disconnecting
  {
  }

  /** Half-closes come only from a `shutdown` in the run, by any thread. */
  lemma {:induction false} HalfCloseNeedsShutdown(evs: seq<Event>)
    requires LegalRun(evs) && forall i :: 0 <= i < |evs| ==> evs[i] != Finish && evs[i] != FinishElsewhere
    ensures Unasked(Run(evs)) && Run(evs).state != Disconnecting
  {
    if evs != [] {
      HalfCloseNeedsShutdown(evs[..|evs| - 1]);
      NextUnasked(Run(evs[..|evs| - 1]), evs[|evs| - 1]);
    }
  }

  // ---------- what calls from other threads can do ----------

  ghost predicate Reaches(evs: seq<Event>, o: Output) {
    LegalRun(evs) && Run(evs) == o
  }

  lemma Then(evs: seq<Event>, o: Output, ev: Event, o': Output)
    requires Reaches(evs, o) && Legal(o, ev) && Next(o, ev) == o'
    ensures Reaches(evs + [ev], o')
  {
    RunSnoc(evs, ev);
  }

  lemma Opening()
    ensures Reaches([Establish], Established(START))
  {
    assert Reaches([], START);
    Then([], START, Establish, Established(START));
    assert [] + [Establish] == [Establish];
  }

  lemma WriteAll(o: Output)
    requires o.writing && o.backlog != [] && o.state == Disconnecting
    ensures HandleWrite(o, |o.backlog|)
         == o.(wire := o.wire + o.backlog, backlog := [], writing := false,
               halfCloses := o.halfCloses + [|o.wire + o.backlog|])
  {
    assert o.backlog[..|o.backlog|] == o.backlog && o.backlog[|o.backlog|..] == [];
  }

  /** A send queued before `shutdown` is taken in after the half-close; its write takes nothing at first, so the
      write event that follows puts it on the wire, and half-closes a second time. */
  lemma DeferredSendFollowsHalfClose(message: Bytes)
    requires message != []
    ensures var evs := [Establish] + [QueueSend(message)] + [Finish] + [Functor(-1)] + [Writable(|message|)];
            && LegalRun(evs) && SomeStrays(evs)
            && Run(evs).wire == message && Run(evs).halfCloses == [0, |message|]
  {
    var o1 := Output(Connected, [], false, [], [], [], [LaterSend(message)], 0, false);
    var o2 := Output(Disconnecting, [], false, [], [], [0], [LaterSend(message)], 0, false);
    var o3 := Output(Disconnecting, message, true, [], message, [0], [], 0, false);
    var o4 := Output(Disconnecting, [], false, message, message, [0, |message|], [], 0, false);
    Opening();
    Then([Establish], Established(START), QueueSend(message), o1);
    var evs := [Establish] + [QueueSend(message)];
    Then(evs, o1, Finish, o2);
    assert [] + message[..0] == [] && message[0..] == message && [] + message == message;
    Then(evs + [Finish], o2, Functor(-1), o3);
    WriteAll(o3);
    Then(evs + [Finish] + [Functor(-1)], o3, Writable(|message|), o4);
    HalfCloseKeepsOrderIff(evs + [Finish] + [Functor(-1)] + [Writable(|message|)]);
  }

  lemma CutShort(message: Bytes)
    requires |message| >= 2
    ensures Reaches([Establish] + [SendNow(message, 1)] + [FinishElsewhere] + [QueueHalfClose],
                    Output(Disconnecting, message[1..], true, message[..1], message, [], [LaterHalfClose], 0, false))
  {
    var o1 := Output(Connected, message[1..], true, message[..1], message, [], [], 0, false);
    var o2 := o1.(state := Disconnecting, owes := 1);
    Opening();
    assert [] + message[..1] == message[..1] && [] + message == message;
    Then([Establish], Established(START), SendNow(message, 1), o1);
    var evs := [Establish] + [SendNow(message, 1)];
    Then(evs, o1, FinishElsewhere, o2);
    Then(evs + [FinishElsewhere], o2, QueueHalfClose, o2.(owes := 0, queued := [LaterHalfClose]));
  }

  /** A `shutdown` of another thread whose functor runs once `handleWrite` has half-closed does it again. */
  lemma QueuedHalfCloseRepeats(message: Bytes)
    requires |message| >= 2
    ensures var evs := [Establish] + [SendNow(message, 1)] + [FinishElsewhere] + [QueueHalfClose]
                       + [Writable(|message| - 1)] + [Functor(0)];
            && LegalRun(evs) && Run(evs).wire == message && Run(evs).halfCloses == [|message|, |message|]
  {
    CutShort(message);
    var evs := [Establish] + [SendNow(message, 1)] + [FinishElsewhere] + [QueueHalfClose];
    var o := Output(Disconnecting, message[1..], true, message[..1], message, [], [LaterHalfClose], 0, false);
    var o1 := Output(Disconnecting, [], false, message, message, [|message|], [LaterHalfClose], 0, false);
    assert message[..1] + message[1..] == message;
    WriteAll(o);
    Then(evs, o, Writable(|message| - 1), o1);
    Then(evs + [Writable(|message| - 1)], o1, Functor(0),
         o1.(queued := [], halfCloses := [|message|, |message|]));
  }

  /** One whose functor runs after the close half-closes over the bytes that the close left behind. */
  lemma QueuedHalfCloseSkipsBacklog(message: Bytes)
    requires |message| >= 2
    ensures var evs := [Establish] + [SendNow(message, 1)] + [FinishElsewhere] + [QueueHalfClose]
                       + [Close] + [Functor(0)];
            && LegalRun(evs) && SomeStrays(evs)
            && Run(evs).halfCloses == [1] && Run(evs).backlog == message[1..]
  {
    CutShort(message);
    var evs := [Establish] + [SendNow(message, 1)] + [FinishElsewhere] + [QueueHalfClose];
    var o := Output(Disconnecting, message[1..], true, message[..1], message, [], [LaterHalfClose], 0, false);
    var o1 := o.(state := Disconnected, writing := false, closed := true);
    Then(evs, o, Close, o1);
    Then(evs + [Close], o1, Functor(0), o1.(queued := [], halfCloses := [1]));
    HalfCloseKeepsOrderIff(evs + [Close] + [Functor(0)]);
  }
}

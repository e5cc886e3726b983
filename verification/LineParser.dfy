// A parser that eats CRLF-terminated lines, for any effect of a line: what it shares with every cut of
// its input. HttpMessage supplies the effect of a line of a request.
module LineParser {
  import opened Octets

  /** What one complete line does to a context. */
  datatype Turn<C> = Fail(ctx: C) | End(ctx: C) | More(ctx: C)

  datatype Status = Incomplete | Complete | Bad

  datatype Outcome<C> = Outcome(status: Status, ctx: C, rest: string)

  datatype Cut = NoLine | Line(line: string, rest: string)

  function FirstLine(s: string): (c: Cut)
    ensures c.Line? ==> |c.rest| + 2 <= |s|
  {
    var n := Search(s);
    if n == |s| then NoLine else Line(s[..n], s[n + 2..])
  }

  /** A failing line is left unread; a last or a good one is consumed. */
  function Eat<C>(turn: (C, string, int) -> Turn<C>, ctx: C, bytes: string, time: int): Outcome<C>
    decreases |bytes|
  {
    match FirstLine(bytes)
    case NoLine => Outcome(Incomplete, ctx, bytes)
    case Line(line, rest) =>
      match turn(ctx, line, time)
      case Fail(ctx') => Outcome(Bad, ctx', bytes)
      case End(ctx') => Outcome(Complete, ctx', rest)
      case More(ctx') => Eat(turn, ctx', rest, time)
  }

  // ---------- two phases ----------

  /** One line in phase `first` leads to phase `later`, which no line can fail. */
  ghost predicate Phases<C(!new)>(turn: (C, string, int) -> Turn<C>, first: C -> bool, later: C -> bool) {
    forall c, line, time ::
      && (first(c) ==> !turn(c, line, time).End?)
      && (later(c) ==> !turn(c, line, time).Fail?)
      && (first(c) || later(c) ==> turn(c, line, time).More? ==> later(turn(c, line, time).ctx))
  }

  lemma {:induction false} EatKeepsPhases<C(!new)>(
    turn: (C, string, int) -> Turn<C>, first: C -> bool, later: C -> bool, ctx: C, bytes: string, time: int)
    requires Phases(turn, first, later) && (first(ctx) || later(ctx))
    ensures var o := Eat(turn, ctx, bytes, time);
            && (o.status == Incomplete ==> FirstLine(o.rest).NoLine?)
            && (o.status == Incomplete ==> later(o.ctx) || (o.ctx == ctx && o.rest == bytes))
            && (o.status == Bad ==> first(ctx) && o.rest == bytes)
    decreases |bytes|
  {
    var cut := FirstLine(bytes);
    if cut.Line? {
      var t := turn(ctx, cut.line, time);
      if t.More? {
        EatKeepsPhases(turn, first, later, t.ctx, cut.rest, time);
        if later(ctx) {
          assert !turn(ctx, cut.line, time).Fail?;
        }
        EatLaterNeverFails(turn, first, later, t.ctx, cut.rest, time);
      }
    }
  }

  lemma {:induction false} EatLaterNeverFails<C(!new)>(
    turn: (C, string, int) -> Turn<C>, first: C -> bool, later: C -> bool, ctx: C, bytes: string, time: int)
    requires Phases(turn, first, later) && later(ctx)
    ensures Eat(turn, ctx, bytes, time).status != Bad
    decreases |bytes|
  {
    var cut := FirstLine(bytes);
    if cut.Line? {
      var t := turn(ctx, cut.line, time);
      if t.More? {
        EatLaterNeverFails(turn, first, later, t.ctx, cut.rest, time);
      }
    }
  }

  // ---------- cutting the stream ----------

  /** Eating `a` and later `b` is eating `a + b`, wherever the cut falls, inside CRLF too. */
  lemma {:induction false} EatResumes<C>(
    turn: (C, string, int) -> Turn<C>, ctx: C, a: string, b: string, time: int)
    ensures var o := Eat(turn, ctx, a, time);
            Eat(turn, ctx, a + b, time) ==
              if o.status == Incomplete then Eat(turn, o.ctx, o.rest + b, time)
              else o.(rest := o.rest + b)
    decreases |a|
  {
    var cut := FirstLine(a);
    if cut.Line? {
      FirstLineStays(a, b);
      assert FirstLine(a + b) == Line(cut.line, cut.rest + b);
      var t := turn(ctx, cut.line, time);
      if t.More? {
        EatResumes(turn, t.ctx, cut.rest, b, time);
      }
    }
  }

  function Seen<C>(forget: C -> C, t: Turn<C>): Turn<C> {
    match t
    case Fail(c) => Fail(forget(c))
    case End(c) => End(forget(c))
    case More(c) => More(forget(c))
  }

  /** What `forget` drops from a context is never looked at, and the time changes nothing else. */
  ghost predicate Timeless<C(!new)>(turn: (C, string, int) -> Turn<C>, forget: C -> C) {
    forall c1, c2, line, t1, t2 :: forget(c1) == forget(c2) ==>
      Seen(forget, turn(c1, line, t1)) == Seen(forget, turn(c2, line, t2))
  }

  ghost predicate Alike<C>(forget: C -> C, o1: Outcome<C>, o2: Outcome<C>) {
    o1.status == o2.status && o1.rest == o2.rest && forget(o1.ctx) == forget(o2.ctx)
  }

  lemma {:induction false} EatIgnoresTime<C(!new)>(
    turn: (C, string, int) -> Turn<C>, forget: C -> C, c1: C, c2: C, bytes: string, t1: int, t2: int)
    requires Timeless(turn, forget) && forget(c1) == forget(c2)
    ensures Alike(forget, Eat(turn, c1, bytes, t1), Eat(turn, c2, bytes, t2))
    decreases |bytes|
  {
    var cut := FirstLine(bytes);
    if cut.Line? {
      var u1, u2 := turn(c1, cut.line, t1), turn(c2, cut.line, t2);
      assert Seen(forget, u1) == Seen(forget, u2);
      if u1.More? {
        EatIgnoresTime(turn, forget, u1.ctx, u2.ctx, cut.rest, t1, t2);
      }
    }
  }

  /** One read: what arrived, and when. */
  datatype Chunk = Chunk(data: string, time: int)

  function Joined(chunks: seq<Chunk>): string {
    if chunks == [] then "" else chunks[0].data + Joined(chunks[1..])
  }

  /** Eat after every read until done; later reads only pile up. */
  function Feed<C>(turn: (C, string, int) -> Turn<C>, ctx: C, pending: string, chunks: seq<Chunk>): Outcome<C>
    decreases |chunks|
  {
    if chunks == [] then
      Outcome(Incomplete, ctx, pending)
    else
      var o := Eat(turn, ctx, pending + chunks[0].data, chunks[0].time);
      if o.status == Incomplete then Feed(turn, o.ctx, o.rest, chunks[1..])
      else o.(rest := o.rest + Joined(chunks[1..]))
  }

  lemma {:induction false} EatEndsWithoutLine<C>(
    turn: (C, string, int) -> Turn<C>, ctx: C, bytes: string, time: int)
    ensures var o := Eat(turn, ctx, bytes, time);
            o.status == Incomplete ==> FirstLine(o.rest).NoLine?
    decreases |bytes|
  {
    var cut := FirstLine(bytes);
    if cut.Line? {
      var t := turn(ctx, cut.line, time);
      if t.More? {
        EatEndsWithoutLine(turn, t.ctx, cut.rest, time);
      }
    }
  }

  /** Any number of reads, cut anywhere, give what one read of all the bytes gives. */
  lemma {:induction false} FeedIsEat<C(!new)>(
    turn: (C, string, int) -> Turn<C>, forget: C -> C, ctx: C, pending: string, chunks: seq<Chunk>, time: int)
    requires Timeless(turn, forget)
    requires chunks == [] ==> FirstLine(pending).NoLine?
    ensures Alike(forget, Feed(turn, ctx, pending, chunks), Eat(turn, ctx, pending + Joined(chunks), time))
    decreases |chunks|
  {
    if chunks == [] {
      assert pending + Joined(chunks) == pending;
    } else {
      var a, b, t := pending + chunks[0].data, Joined(chunks[1..]), chunks[0].time;
      assert pending + Joined(chunks) == a + b;
      EatIgnoresTime(turn, forget, ctx, ctx, a + b, t, time);
      EatResumes(turn, ctx, a, b, t);
      EatEndsWithoutLine(turn, ctx, a, t);
      var o := Eat(turn, ctx, a, t);
      if o.status == Incomplete {
        FeedIsEat(turn, forget, o.ctx, o.rest, chunks[1..], t);
      }
    }
  }

  // ---------- one conversation after another ----------

  /** A connection between reads: `done` holds the contexts that completed, in order. */
  datatype Session<C> = Session(ctx: C, pending: string, done: seq<C>, failed: bool)

  /** One read; a completed context is handed out and `blank` takes its place. */
  function Serve<C>(turn: (C, string, int) -> Turn<C>, blank: C, s: Session<C>, chunk: Chunk): Session<C> {
    if s.failed then
      s.(pending := s.pending + chunk.data)
    else
      var o := Eat(turn, s.ctx, s.pending + chunk.data, chunk.time);
      match o.status
      case Incomplete => Session(o.ctx, o.rest, s.done, false)
      case Complete => Session(blank, o.rest, s.done + [o.ctx], false)
      case Bad => Session(o.ctx, o.rest, s.done, true)
  }

  function ServeAll<C>(turn: (C, string, int) -> Turn<C>, blank: C, s: Session<C>, chunks: seq<Chunk>): Session<C>
    decreases |chunks|
  {
    if chunks == [] then s
    else ServeAll(turn, blank, Serve(turn, blank, s, chunks[0]), chunks[1..])
  }

  lemma {:induction false} ServeAllConcat<C>(
    turn: (C, string, int) -> Turn<C>, blank: C, s: Session<C>, a: seq<Chunk>, b: seq<Chunk>)
    ensures ServeAll(turn, blank, s, a + b) == ServeAll(turn, blank, ServeAll(turn, blank, s, a), b)
    decreases |a|
  {
    if a == [] {
      assert a + b == b;
    } else {
      assert (a + b)[1..] == a[1..] + b;
      ServeAllConcat(turn, blank, Serve(turn, blank, s, a[0]), a[1..], b);
    }
  }

  lemma ServeAllSnoc<C>(
    turn: (C, string, int) -> Turn<C>, blank: C, s: Session<C>, chunks: seq<Chunk>, chunk: Chunk)
    ensures ServeAll(turn, blank, s, chunks + [chunk]) == Serve(turn, blank, ServeAll(turn, blank, s, chunks), chunk)
  {
    ServeAllConcat(turn, blank, s, chunks, [chunk]);
    assert [chunk][1..] == [];
  }

  // ---------- a stream of messages ----------

  function Stream(texts: seq<string>): string {
    if texts == [] then "" else texts[0] + Stream(texts[1..])
  }

  /** How many of the messages have arrived whole, once `n` bytes of their stream have. */
  function Arrived(texts: seq<string>, n: nat): (m: nat)
    ensures m <= |texts|
  {
    if texts == [] || n < |texts[0]| then 0 else 1 + Arrived(texts[1..], n - |texts[0]|)
  }

  /** How many have been answered: each read answers the next one if that has arrived, and no more. */
  function Answered(texts: seq<string>, chunks: seq<Chunk>): (m: nat)
    ensures m <= |texts|
  {
    if chunks == [] then 0
    else
      var before := Answered(texts, chunks[..|chunks| - 1]);
      if before < Arrived(texts, |Joined(chunks)|) then before + 1 else before
  }

  /** The text is one message, whole and with nothing behind it. */
  ghost predicate IsMessage<C>(turn: (C, string, int) -> Turn<C>, blank: C, text: string) {
    var o := Eat(turn, blank, text, 0);
    o.status == Complete && o.rest == ""
  }

  ghost predicate AreMessages<C>(turn: (C, string, int) -> Turn<C>, blank: C, texts: seq<string>) {
    forall i :: 0 <= i < |texts| ==> IsMessage(turn, blank, texts[i])
  }

  ghost predicate DoneInOrder<C>(
    turn: (C, string, int) -> Turn<C>, forget: C -> C, blank: C, texts: seq<string>, done: seq<C>)
  {
    && |done| <= |texts|
    && forall i :: 0 <= i < |done| ==> forget(done[i]) == forget(Eat(turn, blank, texts[i], 0).ctx)
  }

  /** Between reads, with `rest` of the stream still to come: `current` is what is left of the next message, in the
      input or to come, and it completes as that message does. */
  ghost predicate Between<C>(
    turn: (C, string, int) -> Turn<C>, forget: C -> C, blank: C, texts: seq<string>,
    s: Session<C>, current: string, rest: string)
  {
    && !s.failed && DoneInOrder(turn, forget, blank, texts, s.done)
    && var d := |s.done|;
       if d == |texts| then s.ctx == blank && s.pending == "" && rest == ""
       else
         var o := Eat(turn, s.ctx, current, 0);
         && s.pending + rest == current + Stream(texts[d + 1..])
         && o.status == Complete && o.rest == ""
         && forget(o.ctx) == forget(Eat(turn, blank, texts[d], 0).ctx)
  }

  lemma JoinedSnoc(chunks: seq<Chunk>, chunk: Chunk)
    ensures Joined(chunks + [chunk]) == Joined(chunks) + chunk.data
  {
    if chunks == [] {
      assert Joined([chunk]) == chunk.data + "" == chunk.data;
    } else {
      assert (chunks + [chunk])[1..] == chunks[1..] + [chunk];
      JoinedSnoc(chunks[1..], chunk);
    }
  }

  /** The next message has arrived exactly if what is still to come fits behind it. */
  lemma {:induction false} ArrivedIff(texts: seq<string>, n: nat, d: nat)
    requires d < |texts|
    ensures d < Arrived(texts, n) <==> |Stream(texts)| <= n + |Stream(texts[d + 1..])|
  {
    if d == 0 {
    } else {
      assert texts[1..][d..] == texts[d + 1..];
      if n >= |texts[0]| {
        ArrivedIff(texts[1..], n - |texts[0]|, d - 1);
      } else {
        StreamTail(texts[1..], d);
      }
    }
  }

  lemma {:induction false} StreamTail(texts: seq<string>, d: nat)
    requires d <= |texts|
    ensures |Stream(texts[d..])| <= |Stream(texts)|
  {
    if d > 0 {
      assert texts[1..][d - 1..] == texts[d..];
      StreamTail(texts[1..], d - 1);
    } else {
      assert texts[0..] == texts;
    }
  }

  /** With all of `current` in the input, eating completes it and leaves the rest; with less, it goes on later. */
  lemma EatCurrent<C(!new)>(
    turn: (C, string, int) -> Turn<C>, forget: C -> C, ctx: C, current: string, a: string, b: string, time: int)
    returns (left: string)
    requires Timeless(turn, forget)
    requires Eat(turn, ctx, current, 0).status == Complete && Eat(turn, ctx, current, 0).rest == ""
    requires (a == current + b) || (current == a + b && b != "")
    ensures var whole, o := Eat(turn, ctx, current, 0), Eat(turn, ctx, a, time);
            if |current| <= |a| then o.status == Complete && o.rest == b && forget(o.ctx) == forget(whole.ctx)
            else
              var later := Eat(turn, o.ctx, left, 0);
              && o.status == Incomplete && left == o.rest + b
              && later.status == Complete && later.rest == "" && forget(later.ctx) == forget(whole.ctx)
  {
    EatIgnoresTime(turn, forget, ctx, ctx, current, 0, time);
    if |current| <= |a| {
      EatResumes(turn, ctx, current, b, time);
      left := "";
    } else {
      EatResumes(turn, ctx, a, b, time);
      var o := Eat(turn, ctx, a, time);
      assert |o.rest + b| > 0;
      left := o.rest + b;
      EatIgnoresTime(turn, forget, o.ctx, o.ctx, left, time, 0);
    }
  }

  /** A read that brings the end of the next message answers it. */
  lemma ReadToEnd<C(!new)>(
    turn: (C, string, int) -> Turn<C>, forget: C -> C, blank: C, texts: seq<string>,
    s: Session<C>, current: string, chunk: Chunk, b: string, rest: string)
    returns (current': string)
    requires Timeless(turn, forget) && AreMessages(turn, blank, texts)
    requires Between(turn, forget, blank, texts, s, current, chunk.data + rest) && |s.done| < |texts|
    requires s.pending + chunk.data == current + b && b + rest == Stream(texts[|s.done| + 1..])
    ensures var s' := Serve(turn, blank, s, chunk);
            Between(turn, forget, blank, texts, s', current', rest) && |s'.done| == |s.done| + 1
  {
    var d := |s.done|;
    var _ := EatCurrent(turn, forget, s.ctx, current, s.pending + chunk.data, b, chunk.time);
    current' := "";
    if d + 1 < |texts| {
      current' := texts[d + 1];
      assert IsMessage(turn, blank, texts[d + 1]);
      assert texts[d + 1..][1..] == texts[d + 2..];
    }
  }

  /** Any other read leaves less of it to come. */
  lemma ReadPart<C(!new)>(
    turn: (C, string, int) -> Turn<C>, forget: C -> C, blank: C, texts: seq<string>,
    s: Session<C>, current: string, chunk: Chunk, b: string, rest: string)
    returns (current': string)
    requires Timeless(turn, forget)
    requires Between(turn, forget, blank, texts, s, current, chunk.data + rest) && |s.done| < |texts|
    requires current == s.pending + chunk.data + b && b != "" && rest == b + Stream(texts[|s.done| + 1..])
    ensures var s' := Serve(turn, blank, s, chunk);
            Between(turn, forget, blank, texts, s', current', rest) && s'.done == s.done
  {
    var a := s.pending + chunk.data;
    current' := EatCurrent(turn, forget, s.ctx, current, a, b, chunk.time);
    Regroup(Eat(turn, s.ctx, a, chunk.time).rest, b, Stream(texts[|s.done| + 1..]));
  }

  /** Two ways to cut one string: the longer first part holds the shorter one. */
  lemma Overlap(a: string, rest: string, current: string, tail: string) returns (b: string)
    requires a + rest == current + tail
    ensures |current| <= |a| ==> a == current + b && b + rest == tail
    ensures |current| > |a| ==> current == a + b && b != "" && rest == b + tail
  {
    if |current| <= |a| {
      b := a[|current|..];
      assert a == (a + rest)[..|a|] && current == (current + tail)[..|current|];
      assert tail == (current + tail)[|current|..];
    } else {
      b := current[|a|..];
      assert a == (a + rest)[..|a|] && current == (current + tail)[..|current|];
      assert rest == (a + rest)[|a|..];
    }
  }

  /** One read of the stream. */
  lemma ReadOn<C(!new)>(
    turn: (C, string, int) -> Turn<C>, forget: C -> C, blank: C, texts: seq<string>,
    s: Session<C>, current: string, chunk: Chunk, rest: string)
    returns (current': string)
    requires Timeless(turn, forget) && AreMessages(turn, blank, texts)
    requires Between(turn, forget, blank, texts, s, current, chunk.data + rest)
    ensures var s', d := Serve(turn, blank, s, chunk), |s.done|;
            && Between(turn, forget, blank, texts, s', current', rest)
            && |s'.done| == if d < |texts| && |rest| <= |Stream(texts[d + 1..])| then d + 1 else d
  {
    var d, a := |s.done|, s.pending + chunk.data;
    if d == |texts| {
      assert chunk.data == "" && rest == "" && a == "";
      current' := "";
    } else {
      var tail := Stream(texts[d + 1..]);
      Regroup(s.pending, chunk.data, rest);
      var b := Overlap(a, rest, current, tail);
      if |current| <= |a| {
        current' := ReadToEnd(turn, forget, blank, texts, s, current, chunk, b, rest);
      } else {
        current' := ReadPart(turn, forget, blank, texts, s, current, chunk, b, rest);
      }
    }
  }

  lemma NextHasArrived(texts: seq<string>, chunks: seq<Chunk>, rest: string, d: nat)
    requires Joined(chunks) + rest == Stream(texts) && d < |texts|
    ensures d < Arrived(texts, |Joined(chunks)|) <==> |rest| <= |Stream(texts[d + 1..])|
  {
    ArrivedIff(texts, |Joined(chunks)|, d);
    assert |Stream(texts)| == |Joined(chunks)| + |rest|;
  }

  lemma Opening<C(!new)>(
    turn: (C, string, int) -> Turn<C>, forget: C -> C, blank: C, texts: seq<string>)
    returns (current: string)
    requires AreMessages(turn, blank, texts)
    ensures Between(turn, forget, blank, texts, Session(blank, "", [], false), current, Stream(texts))
  {
    current := if texts == [] then "" else texts[0];
    assert texts != [] ==> IsMessage(turn, blank, texts[0]);
  }

  /** Messages sent one after the other, cut into reads in any way: after any of them, exactly the messages that
      `Answered` counts are done, in order, each as if it had come in one piece. */
  lemma {:induction false} StreamIsServed<C(!new)>(
    turn: (C, string, int) -> Turn<C>, forget: C -> C, blank: C, texts: seq<string>, chunks: seq<Chunk>, rest: string)
    returns (current: string)
    requires Timeless(turn, forget) && AreMessages(turn, blank, texts)
    requires Joined(chunks) + rest == Stream(texts)
    ensures var s := ServeAll(turn, blank, Session(blank, "", [], false), chunks);
            && Between(turn, forget, blank, texts, s, current, rest)
            && |s.done| == Answered(texts, chunks)
    decreases |chunks|
  {
    if chunks == [] {
      assert rest == Stream(texts);
      current := Opening(turn, forget, blank, texts);
    } else {
      var init, chunk := chunks[..|chunks| - 1], chunks[|chunks| - 1];
      assert chunks == init + [chunk];
      JoinedSnoc(init, chunk);
      Regroup(Joined(init), chunk.data, rest);
      var before := StreamIsServed(turn, forget, blank, texts, init, chunk.data + rest);
      ServeAllSnoc(turn, blank, Session(blank, "", [], false), init, chunk);
      var s := ServeAll(turn, blank, Session(blank, "", [], false), init);
      current := ReadOn(turn, forget, blank, texts, s, before, chunk, rest);
      if |s.done| < |texts| {
        NextHasArrived(texts, chunks, rest, |s.done|);
      }
    }
  }

  lemma StreamIsAnswered<C(!new)>(
    turn: (C, string, int) -> Turn<C>, forget: C -> C, blank: C, texts: seq<string>, chunks: seq<Chunk>)
    requires Timeless(turn, forget) && AreMessages(turn, blank, texts) && Joined(chunks) <= Stream(texts)
    ensures var s := ServeAll(turn, blank, Session(blank, "", [], false), chunks);
            && !s.failed && |s.done| == Answered(texts, chunks)
            && DoneInOrder(turn, forget, blank, texts, s.done)
  {
    var _ := StreamIsServed(turn, forget, blank, texts, chunks, Stream(texts)[|Joined(chunks)|..]);
  }

  /** A message waits unread after a read if and only if more have arrived than were answered. */
  lemma MessageWaitsIff<C(!new)>(
    turn: (C, string, int) -> Turn<C>, forget: C -> C, blank: C, texts: seq<string>, chunks: seq<Chunk>, time: int)
    requires Timeless(turn, forget) && AreMessages(turn, blank, texts) && Joined(chunks) <= Stream(texts)
    ensures var s := ServeAll(turn, blank, Session(blank, "", [], false), chunks);
            Eat(turn, s.ctx, s.pending, time).status == Complete <==>
              Answered(texts, chunks) < Arrived(texts, |Joined(chunks)|)
  {
    var s := ServeAll(turn, blank, Session(blank, "", [], false), chunks);
    var rest := Stream(texts)[|Joined(chunks)|..];
    var current := StreamIsServed(turn, forget, blank, texts, chunks, rest);
    NextCompletesIff(turn, forget, blank, texts, s, current, rest, time);
    if |s.done| < |texts| {
      NextHasArrived(texts, chunks, rest, |s.done|);
    }
  }

  lemma NextCompletesIff<C(!new)>(
    turn: (C, string, int) -> Turn<C>, forget: C -> C, blank: C, texts: seq<string>,
    s: Session<C>, current: string, rest: string, time: int)
    requires Timeless(turn, forget) && AreMessages(turn, blank, texts)
    requires Between(turn, forget, blank, texts, s, current, rest)
    ensures Eat(turn, s.ctx, s.pending, time).status == Complete <==>
              |s.done| < |texts| && |rest| <= |Stream(texts[|s.done| + 1..])|
  {
    assert "" + rest == rest && s.pending + "" == s.pending;
    var _ := ReadOn(turn, forget, blank, texts, s, current, Chunk("", time), rest);
  }

  // ---------- when the server keeps up ----------

  /** Read number `k` holds the end of at most one message. */
  predicate EndsOne(texts: seq<string>, chunks: seq<Chunk>, k: nat)
    requires k < |chunks|
  {
    Arrived(texts, |Joined(chunks[..k + 1])|) <= Arrived(texts, |Joined(chunks[..k])|) + 1
  }

  predicate OneEndPerRead(texts: seq<string>, chunks: seq<Chunk>) {
    forall k :: 0 <= k < |chunks| ==> EndsOne(texts, chunks, k)
  }

  /** After `k` reads all messages that have arrived are answered. */
  predicate UpToDate(texts: seq<string>, chunks: seq<Chunk>, k: nat)
    requires k <= |chunks|
  {
    Answered(texts, chunks[..k]) == Arrived(texts, |Joined(chunks[..k])|)
  }

  predicate KeepsUp(texts: seq<string>, chunks: seq<Chunk>) {
    forall k :: 0 <= k <= |chunks| ==> UpToDate(texts, chunks, k)
  }

  lemma {:induction false} ArrivedGrows(texts: seq<string>, m: nat, n: nat)
    requires m <= n
    ensures Arrived(texts, m) <= Arrived(texts, n)
  {
    if texts != [] && m >= |texts[0]| {
      ArrivedGrows(texts[1..], m - |texts[0]|, n - |texts[0]|);
    }
  }

  lemma KeepsUpSnoc(texts: seq<string>, chunks: seq<Chunk>)
    requires chunks != []
    ensures var init := chunks[..|chunks| - 1];
            && (KeepsUp(texts, chunks) <==>
                  KeepsUp(texts, init) && Answered(texts, chunks) == Arrived(texts, |Joined(chunks)|))
            && (OneEndPerRead(texts, chunks) <==>
                  OneEndPerRead(texts, init)
                  && Arrived(texts, |Joined(chunks)|) <= Arrived(texts, |Joined(init)|) + 1)
  {
    var n := |chunks| - 1;
    var init := chunks[..n];
    assert chunks[..n + 1] == chunks;
    assert forall k :: 0 <= k <= n ==> init[..k] == chunks[..k];
    assert forall k :: 0 <= k <= n ==> UpToDate(texts, init, k) == UpToDate(texts, chunks, k);
    assert forall k :: 0 <= k < n ==> EndsOne(texts, init, k) == EndsOne(texts, chunks, k);
    assert UpToDate(texts, chunks, n + 1) <==> Answered(texts, chunks) == Arrived(texts, |Joined(chunks)|);
    assert EndsOne(texts, chunks, n) <==> Arrived(texts, |Joined(chunks)|) <= Arrived(texts, |Joined(init)|) + 1;
  }

  /** Messages that have arrived are always answered at once if and only if no read holds the ends of two. */
  lemma {:induction false} KeepsUpIff(texts: seq<string>, chunks: seq<Chunk>)
    requires |texts| > 0 ==> texts[0] != ""
    ensures KeepsUp(texts, chunks) <==> OneEndPerRead(texts, chunks)
    ensures Answered(texts, chunks) <= Arrived(texts, |Joined(chunks)|)
  {
    if chunks != [] {
      var init, chunk := chunks[..|chunks| - 1], chunks[|chunks| - 1];
      assert chunks == init + [chunk];
      JoinedSnoc(init, chunk);
      ArrivedGrows(texts, |Joined(init)|, |Joined(chunks)|);
      KeepsUpIff(texts, init);
      KeepsUpSnoc(texts, chunks);
      KeepsUpNow(texts, init);
    }
  }

  lemma KeepsUpNow(texts: seq<string>, chunks: seq<Chunk>)
    ensures KeepsUp(texts, chunks) ==> Answered(texts, chunks) == Arrived(texts, |Joined(chunks)|)
  {
    assert chunks[..|chunks|] == chunks;
    assert KeepsUp(texts, chunks) ==> UpToDate(texts, chunks, |chunks|);
  }
}

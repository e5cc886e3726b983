// The loop object of net/EventLoop.cpp, updated in place. Every access is a step of LoopProtocol, whose
// theorems therefore hold at each point. Calls of other threads come as arguments, each a complete call:
// LoopProtocol also has the interleavings that cut them between the push and the wakeup.
module EventLoop {
  import opened Octets
  import opened LoopProtocol

  datatype Caller = LoopThread | Other(t: ThreadId)

  /** A `queueInLoop` or a `quit`, with the thread that makes it. */
  datatype Call = Queue(caller: Caller, f: Functor) | Quit(caller: Caller)

  /** The calls made while each functor runs: its own, and those of other threads. */
  type Scripts = map<Functor, seq<Call>>

  function Script(scripts: Scripts, f: Functor): seq<Call> {
    if f in scripts then scripts[f] else []
  }

  /** The functors that `calls` queue, in order. */
  function Queued(calls: seq<Call>): seq<Functor> {
    if calls == [] then []
    else Queued(calls[..|calls| - 1]) + (if calls[|calls| - 1].Queue? then [calls[|calls| - 1].f] else [])
  }

  predicate Quits(calls: seq<Call>) {
    exists i :: 0 <= i < |calls| && calls[i].Quit?
  }

  /** The functors queued while `batch` runs. */
  function QueuedBy(batch: seq<Functor>, scripts: Scripts): seq<Functor> {
    if batch == [] then []
    else QueuedBy(batch[..|batch| - 1], scripts) + Queued(Script(scripts, batch[|batch| - 1]))
  }

  /** Some call made while `batch` runs asks to quit. */
  predicate QuitsBy(batch: seq<Functor>, scripts: Scripts) {
    exists i :: 0 <= i < |batch| && Quits(Script(scripts, batch[i]))
  }

  predicate OthersOnly(calls: seq<Call>) {
    forall i :: 0 <= i < |calls| ==> calls[i].caller.Other?
  }

  /** What a pass of the loop meets: calls while it polls, whether the poll reports the eventfd, calls of
      handlers and others before and after the eventfd is read, calls before the swap, and the functors' own. */
  datatype Pass = Pass(
    polling: seq<Call>, reported: bool, early: seq<Call>, late: seq<Call>, swapping: seq<Call>, scripts: Scripts)

  /** What a pass swaps out, given what was pending at its start. */
  function Swapped(pending: seq<Functor>, pass: Pass): seq<Functor> {
    pending + Queued(pass.polling) + Queued(pass.early) + Queued(pass.late) + Queued(pass.swapping)
  }

  /** Some call made in the pass asks to quit. */
  predicate PassQuits(pending: seq<Functor>, pass: Pass) {
    || Quits(pass.polling) || Quits(pass.early) || Quits(pass.late) || Quits(pass.swapping)
    || QuitsBy(Swapped(pending, pass), pass.scripts)
  }

  /** What is pending after `passes`: what was queued while the last batch ran. */
  function PendingAfter(pending: seq<Functor>, passes: seq<Pass>): seq<Functor> {
    if passes == [] then pending
    else
      var pass := passes[|passes| - 1];
      QueuedBy(Swapped(PendingAfter(pending, passes[..|passes| - 1]), pass), pass.scripts)
  }

  /** What `passes` run. */
  function RanBy(pending: seq<Functor>, passes: seq<Pass>): seq<Functor> {
    if passes == [] then []
    else
      var init := passes[..|passes| - 1];
      RanBy(pending, init) + Swapped(PendingAfter(pending, init), passes[|passes| - 1])
  }

  /** Some call made in the `k`-th of `passes` asks to quit. */
  predicate QuitsIn(first: seq<Functor>, passes: seq<Pass>, k: nat)
    requires k < |passes|
  {
    PassQuits(PendingAfter(first, passes[..k]), passes[k])
  }

  /** All of `passes` were made since `ran` had run and `first` was pending, and only the last may ask to quit. */
  ghost predicate History(
    passes: seq<Pass>, ran: seq<Functor>, first: seq<Functor>, ranNow: seq<Functor>, pending: seq<Functor>, quit: bool)
  {
    && ranNow == ran + RanBy(first, passes) && pending == PendingAfter(first, passes)
    && (forall k :: 0 <= k < |passes| - 1 ==> !QuitsIn(first, passes, k))
    && (quit <==> passes != [] && QuitsIn(first, passes, |passes| - 1))
  }

  lemma HistoryStarts(ran: seq<Functor>, first: seq<Functor>)
    ensures History([], ran, first, ran, first, false)
  {
  }

  lemma HistorySnoc(
    passes: seq<Pass>, pass: Pass, ran: seq<Functor>, first: seq<Functor>, ranNow: seq<Functor>, pending: seq<Functor>)
    requires History(passes, ran, first, ranNow, pending, false)
    ensures History(passes + [pass], ran, first, ranNow + Swapped(pending, pass),
                    QueuedBy(Swapped(pending, pass), pass.scripts), PassQuits(pending, pass))
  {
    var all := passes + [pass];
    assert all[..|passes|] == passes;
    Regroup(ran, RanBy(first, passes), Swapped(pending, pass));
    assert QuitsIn(first, all, |passes|) == PassQuits(pending, pass);
    forall k | 0 <= k < |passes|
      ensures !QuitsIn(first, all, k)
    {
      SameBefore(first, passes, pass, k);
    }
  }

  lemma SameBefore(first: seq<Functor>, passes: seq<Pass>, pass: Pass, k: nat)
    requires k < |passes|
    ensures QuitsIn(first, passes + [pass], k) == QuitsIn(first, passes, k)
  {
    assert (passes + [pass])[..k] == passes[..k];
  }

  lemma QuitsBySnoc(batch: seq<Functor>, scripts: Scripts, i: nat)
    requires i < |batch|
    ensures QuitsBy(batch[..i + 1], scripts) <==> QuitsBy(batch[..i], scripts) || Quits(Script(scripts, batch[i]))
  {
    assert batch[..i + 1][i] == batch[i];
    assert forall k :: 0 <= k < i ==> batch[..i + 1][k] == batch[..i][k];
  }

  /** After `i` functors of the swapped vector: what is left of it, what has run on top of `ran`, what waits,
      and whether the loop is to quit. */
  ghost predicate BatchDone(
    functors: seq<Functor>, scripts: Scripts, i: nat, ran: seq<Functor>, asked: bool,
    batch: seq<Functor>, ranNow: seq<Functor>, pending: seq<Functor>, quit: bool)
  {
    && i <= |functors|
    && batch == functors[i..] && ranNow == ran + functors[..i]
    && pending == QueuedBy(functors[..i], scripts)
    && (quit <==> asked || QuitsBy(functors[..i], scripts))
  }

  lemma BatchStarts(functors: seq<Functor>, scripts: Scripts, ran: seq<Functor>, asked: bool)
    ensures BatchDone(functors, scripts, 0, ran, asked, functors, ran, [], asked)
  {
    assert functors[0..] == functors && ran + functors[..0] == ran;
  }

  lemma BatchSnoc(
    functors: seq<Functor>, scripts: Scripts, i: nat, ran: seq<Functor>, asked: bool,
    batch: seq<Functor>, ranNow: seq<Functor>, pending: seq<Functor>, quit: bool)
    requires i < |functors| && BatchDone(functors, scripts, i, ran, asked, batch, ranNow, pending, quit)
    ensures batch != [] && batch[0] == functors[i]
    ensures BatchDone(functors, scripts, i + 1, ran, asked, batch[1..], ranNow + [batch[0]],
                      pending + Queued(Script(scripts, functors[i])), quit || Quits(Script(scripts, functors[i])))
  {
    var f := functors[i];
    assert functors[..i + 1][..i] == functors[..i] && functors[..i + 1] == functors[..i] + [f];
    Regroup(ran, functors[..i], [f]);
    QuitsBySnoc(functors, scripts, i);
  }

  /** `queueInLoop` and `quit` wake the loop. */
  predicate Wakes(before: Loop, call: Call) {
    call.caller.Other? || (call.Queue? && before.calling)
  }

  ghost predicate Apart(before: Loop, after: Loop) {
    && after.place == before.place && after.calling == before.calling
    && after.batch == before.batch && after.ran == before.ran && after.wakeActive == before.wakeActive
    && after.owing == before.owing && after.loopOwes == before.loopOwes
    && (before.count > 0 ==> after.count > 0)
  }

  /** What one call does. */
  ghost predicate Made(before: Loop, after: Loop, call: Call) {
    && Apart(before, after)
    && after.pending == before.pending + (if call.Queue? then [call.f] else [])
    && (after.quit <==> before.quit || call.Quit?)
    && after.count == (if Wakes(before, call) then Written(before.count) else before.count)
  }

  /** What calls do together: a functor that will not be swapped in this pass leaves the eventfd readable. */
  ghost predicate Meanwhile(before: Loop, after: Loop, calls: seq<Call>) {
    && Apart(before, after)
    && after.pending == before.pending + Queued(calls)
    && (after.quit <==> before.quit || Quits(calls))
    && ((before.calling || OthersOnly(calls)) && Queued(calls) != [] ==> after.count > 0)
  }

  lemma MeanwhileSnoc(s: Loop, s': Loop, s'': Loop, calls: seq<Call>, i: nat)
    requires i < |calls| && Meanwhile(s, s', calls[..i]) && Made(s', s'', calls[i])
    ensures Meanwhile(s, s'', calls[..i + 1])
  {
    var before, upTo := calls[..i], calls[..i + 1];
    assert upTo[..i] == before && upTo[i] == calls[i];
    assert forall j :: 0 <= j < i ==> upTo[j] == before[j];
    assert Queued(before) + [] == Queued(before);
  }

  function PushStep(caller: Caller, f: Functor): Step {
    if caller.Other? then Push(caller.t, f) else LoopPush(f)
  }

  function WakeStep(caller: Caller): Step {
    if caller.Other? then Wake(caller.t) else LoopWake
  }

  /** The push, and the wakeup where `queueInLoop` makes one. */
  lemma QueueMakes(s: Loop, caller: Caller, f: Functor)
    requires s.owing == {} && !s.loopOwes && Legal(s, PushStep(caller, f))
    ensures var s1 := Next(s, PushStep(caller, f));
            if caller.Other? || s.calling then
              && Legal(s1, WakeStep(caller)) && Made(s, Next(s1, WakeStep(caller)), Queue(caller, f))
              && Next(s1, WakeStep(caller)).owing == {} && !Next(s1, WakeStep(caller)).loopOwes
            else
              Made(s, s1, Queue(caller, f)) && s1.owing == {} && !s1.loopOwes
  {
  }

  function QuitStep(caller: Caller): Step {
    if caller.Other? then SetQuit(caller.t) else LoopQuit
  }

  lemma QuitMakes(s: Loop, caller: Caller)
    requires s.owing == {} && !s.loopOwes && Legal(s, QuitStep(caller))
    ensures var s1 := Next(s, QuitStep(caller));
            if caller.Other? then
              && Legal(s1, WakeStep(caller)) && Made(s, Next(s1, WakeStep(caller)), Quit(caller))
              && Next(s1, WakeStep(caller)).owing == {} && !Next(s1, WakeStep(caller)).loopOwes
            else
              Made(s, s1, Quit(caller)) && s1.owing == {} && !s1.loopOwes
  {
  }

  class EventLoop {
    var quit: bool
    var calling: bool
    var pending: seq<Functor>
    var eventfd: nat

    ghost var state: Loop             // as LoopProtocol sees it

    ghost predicate Valid()
      reads this
    {
      && Reached(state)
      && quit == state.quit && calling == state.calling
      && pending == state.pending && eventfd == state.count
    }

    /** No call is under way. */
    ghost predicate AtRest()
      reads this
    {
      Valid() && state.owing == {} && !state.loopOwes
    }

    constructor ()
      ensures AtRest() && state == START
    {
      quit, calling, pending, eventfd := false, false, [], 0;
      state := START;
      StartIsReached();
    }

    ghost method Record(st: Step)
      requires Reached(state) && Legal(state, st)
      modifies this`state
      ensures Reached(state) && state == Next(old(state), st)
    {
      NextIsReached(state, st);
      state := Next(state, st);
    }

    method Wakeup(caller: Caller)
      requires Valid() && (if caller.Other? then caller.t in state.owing else state.loopOwes)
      modifies this
      ensures Valid() && state == Next(old(state), WakeStep(caller))
    {
      eventfd := Written(eventfd);
      Record(WakeStep(caller));
    }

    /** Whether the loop's own thread may be making a call here. */
    ghost predicate MayCall(caller: Caller)
      reads this
    {
      caller.LoopThread? ==> state.place in {Idle, InDispatch, InBatch} && (calling <==> state.place == InBatch)
    }

    /** The locked push. */
    method PushBack(caller: Caller, f: Functor)
      requires AtRest() && MayCall(caller)
      modifies this
      ensures Valid() && state == Next(old(state), PushStep(caller, f))
    {
      pending := pending + [f];
      Record(PushStep(caller, f));
    }

    method QueueInLoop(caller: Caller, f: Functor)
      requires AtRest() && MayCall(caller)
      modifies this
      ensures AtRest() && Made(old(state), state, Queue(caller, f))
    {
      QueueMakes(state, caller, f);
      PushBack(caller, f);
      if caller.Other? || calling {
        Wakeup(caller);
      }
    }

    /** On the loop's own thread the functor is called at once, past the queue. */
    method RunInLoop(caller: Caller, f: Functor) returns (called: bool)
      requires AtRest() && MayCall(caller)
      modifies this
      ensures AtRest() && called == caller.LoopThread?
      ensures if called then state == old(state) else Made(old(state), state, Queue(caller, f))
    {
      called := caller.LoopThread?;
      if !called {
        QueueInLoop(caller, f);
      }
    }

    method RequestQuit(caller: Caller)
      requires AtRest() && MayCall(caller)
      modifies this
      ensures AtRest() && Made(old(state), state, Quit(caller))
    {
      QuitMakes(state, caller);
      quit := true;
      Record(QuitStep(caller));
      if caller.Other? {
        Wakeup(caller);
      }
    }

    method Do(calls: seq<Call>)
      requires AtRest()
      requires OthersOnly(calls) || MayCall(LoopThread)
      modifies this
      ensures AtRest() && Meanwhile(old(state), state, calls)
    {
      ghost var before := state;
      assert calls[..0] == [];
      for i := 0 to |calls|
        invariant AtRest() && Meanwhile(before, state, calls[..i])
      {
        ghost var here := state;
        match calls[i] {
          case Queue(caller, f) => QueueInLoop(caller, f);
          case Quit(caller) => RequestQuit(caller);
        }
        MeanwhileSnoc(before, here, state, calls, i);
      }
      assert calls[..|calls|] == calls;
    }

    /** The first half of `doPendingFunctors`: calls of others, and then the locked swap. */
    method SwapPending(swapping: seq<Call>) returns (functors: seq<Functor>)
      requires AtRest() && state.place == InDispatch && !state.wakeActive && OthersOnly(swapping)
      modifies this
      ensures AtRest() && state.place == InBatch && calling && (quit <==> old(quit) || Quits(swapping))
      ensures functors == old(pending) + Queued(swapping) && pending == []
      ensures state.batch == functors && state.ran == old(state.ran)
    {
      calling := true;
      Record(EndDispatch);
      Do(swapping);
      functors := pending;
      pending := [];
      Record(Swap);
    }

    ghost predicate BatchAt(functors: seq<Functor>, scripts: Scripts, ran: seq<Functor>, asked: bool, i: nat)
      reads this
    {
      && AtRest() && state.place == InBatch && calling
      && BatchDone(functors, scripts, i, ran, asked, state.batch, state.ran, pending, quit)
      && (pending != [] ==> eventfd > 0)
    }

    /** The functor leaves the swapped vector and begins to run. */
    ghost method StartNext()
      requires AtRest() && state.place == InBatch && state.batch != []
      modifies this`state
      ensures AtRest() && state == old(state).(batch := old(state).batch[1..],
                                               ran := old(state).ran + [old(state).batch[0]])
    {
      Record(RunNext);
    }

    method RunFunctor(functors: seq<Functor>, scripts: Scripts, ghost ran: seq<Functor>, ghost asked: bool, i: nat)
      requires BatchAt(functors, scripts, ran, asked, i) && i < |functors|
      modifies this
      ensures BatchAt(functors, scripts, ran, asked, i + 1)
    {
      BatchSnoc(functors, scripts, i, ran, asked, state.batch, state.ran, pending, quit);
      StartNext();
      Do(Script(scripts, functors[i]));
    }

    /** Everything pending at the swap runs, in order; what is queued meanwhile waits, with the eventfd readable. */
    method DoPendingFunctors(swapping: seq<Call>, scripts: Scripts)
      requires AtRest() && state.place == InDispatch && !state.wakeActive && OthersOnly(swapping)
      modifies this
      ensures AtRest() && state.place == AtTop && !calling
      ensures state.ran == old(state.ran) + (old(pending) + Queued(swapping))
      ensures quit <==> old(quit) || Quits(swapping) || QuitsBy(old(pending) + Queued(swapping), scripts)
      ensures pending == QueuedBy(old(pending) + Queued(swapping), scripts)
      ensures pending != [] ==> eventfd > 0
    {
      ghost var ran := state.ran;
      var functors := SwapPending(swapping);
      ghost var asked := quit;
      BatchStarts(functors, scripts, ran, asked);
      for i := 0 to |functors|
        invariant BatchAt(functors, scripts, ran, asked, i)
      {
        RunFunctor(functors, scripts, ran, asked, i);
      }
      assert functors[..|functors|] == functors;
      calling := false;
      Record(EndBatch);
    }

    /** The poll and the event handlers, the eventfd's own among them. */
    method HandleEvents(pass: Pass)
      requires AtRest() && state.place == AtTop && !quit && !calling && OthersOnly(pass.polling)
      modifies this
      ensures AtRest() && state.place == InDispatch && !state.wakeActive && state.ran == old(state.ran)
      ensures pending == old(pending) + Queued(pass.polling) + Queued(pass.early) + Queued(pass.late)
      ensures quit <==> Quits(pass.polling) || Quits(pass.early) || Quits(pass.late)
    {
      Record(TestQuit);
      Do(pass.polling);
      var wake := pass.reported && eventfd > 0;
      Record(PollReturn(wake));
      Do(pass.early);
      if wake {
        eventfd := 0;
        Record(ReadEventfd);
      }
      Do(pass.late);
    }

    /** One pass of the `while` loop of `loop`. */
    method Iterate(pass: Pass)
      requires AtRest() && state.place == AtTop && !quit && !calling
      requires OthersOnly(pass.polling) && OthersOnly(pass.swapping)
      modifies this
      ensures AtRest() && state.place == AtTop && !calling
      ensures state.ran == old(state.ran) + Swapped(old(pending), pass)
      ensures pending == QueuedBy(Swapped(old(pending), pass), pass.scripts)
      ensures pending != [] ==> eventfd > 0
      ensures quit <==> PassQuits(old(pending), pass)
    {
      HandleEvents(pass);
      DoPendingFunctors(pass.swapping, pass.scripts);
    }

    ghost predicate PassesMade(passes: seq<Pass>, ran: seq<Functor>, first: seq<Functor>)
      reads this
    {
      && AtRest() && state.place == AtTop && !calling
      && History(passes, ran, first, state.ran, pending, quit)
      && (passes != [] && pending != [] ==> eventfd > 0)
    }

    method NextPass(ghost made: seq<Pass>, pass: Pass, ghost ran: seq<Functor>, ghost first: seq<Functor>)
      requires PassesMade(made, ran, first) && !quit
      requires OthersOnly(pass.polling) && OthersOnly(pass.swapping)
      modifies this
      ensures PassesMade(made + [pass], ran, first)
    {
      HistorySnoc(made, pass, ran, first, state.ran, pending);
      Iterate(pass);
    }

    /** `loop`, for as many passes as are given: it makes them all, up to the first in which some call asks to quit. */
    method Loop(passes: seq<Pass>) returns (n: nat)
      requires AtRest() && state.place == Idle && !calling
      requires forall i :: 0 <= i < |passes| ==> OthersOnly(passes[i].polling) && OthersOnly(passes[i].swapping)
      modifies this
      ensures AtRest() && n <= |passes| && state.place == (if quit then Idle else AtTop)
      ensures History(passes[..n], old(state.ran), old(pending), state.ran, pending, quit)
      ensures n > 0 && pending != [] ==> eventfd > 0
      ensures n < |passes| ==> quit
    {
      ghost var ran, first := state.ran, pending;
      quit := false;
      Record(StartLoop);
      n := 0;
      HistoryStarts(ran, first);
      assert passes[..0] == [];
      while !quit && n < |passes|
        invariant n <= |passes| && PassesMade(passes[..n], ran, first)
      {
        assert passes[..n + 1] == passes[..n] + [passes[n]];
        NextPass(passes[..n], passes[n], ran, first);
        n := n + 1;
      }
      if quit {
        Record(TestQuit);
      }
    }
  }
}

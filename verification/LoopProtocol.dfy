// The functor hand-off of net/EventLoop.cpp as interleaved steps: the loop thread and any number of other
// threads, each between its locked push (or its `quit_ = true`) and its write to the eventfd.
module LoopProtocol {
  import opened Octets

  /** A queued functor; what it does shows as the loop thread's steps while it runs. */
  type Functor = nat
  type ThreadId = nat

  /** An eventfd holds at most 2^64 - 2; a write that would pass that changes nothing. */
  const EVENTFD_MAX: nat := 0xFFFF_FFFF_FFFF_FFFE

  datatype Place = Idle | AtTop | AtPoll | InDispatch | BeforeSwap | InBatch

  datatype Loop = Loop(
    place: Place,                 // where the loop thread stands
    quit: bool,
    calling: bool,                // callingPendingFuntors_
    pending: seq<Functor>,
    batch: seq<Functor>,          // what is left of the swapped vector
    count: nat,                   // the eventfd
    wakeActive: bool,             // the poll reported the eventfd and it was not read yet
    owing: set<ThreadId>,         // other threads that have yet to call `wakeup`
    loopOwes: bool,               // the loop thread has yet to call `wakeup`
    queued: seq<Functor>,         // every push so far, in lock order
    ran: seq<Functor>)            // every functor run from the queue so far

  const START: Loop := Loop(Idle, false, false, [], [], 0, false, {}, false, [], [])

  datatype Step =
    | StartLoop
    | TestQuit
    | PollReturn(wake: bool)
    | ReadEventfd
    | EndDispatch
    | Swap
    | RunNext
    | EndBatch
    | LoopPush(f: Functor)
    | LoopQuit
    | LoopWake
    | Push(t: ThreadId, f: Functor)
    | SetQuit(t: ThreadId)
    | Wake(t: ThreadId)

  predicate ByOther(st: Step) {
    st.Push? || st.SetQuit? || st.Wake?
  }

  /** The loop thread finishes `queueInLoop` before it does anything else. */
  predicate Legal(s: Loop, st: Step) {
    match st
    case Push(t, _) => t !in s.owing
    case SetQuit(t) => t !in s.owing
    case Wake(t) => t in s.owing
    case LoopWake => s.loopOwes
    case _ => !s.loopOwes && LoopLegal(s, st)
  }

  /** Outside the loop, in an event handler or in a functor the loop thread may queue and quit. */
  predicate LoopLegal(s: Loop, st: Step)
    requires !ByOther(st) && !st.LoopWake?
  {
    match st
    case StartLoop => s.place == Idle
    case TestQuit => s.place == AtTop
    case PollReturn(wake) => s.place == AtPoll && (wake ==> s.count > 0)
    case ReadEventfd => s.place == InDispatch && s.wakeActive
    case EndDispatch => s.place == InDispatch && !s.wakeActive
    case Swap => s.place == BeforeSwap
    case RunNext => s.place == InBatch && s.batch != []
    case EndBatch => s.place == InBatch && s.batch == []
    case LoopPush(_) => s.place in {Idle, InDispatch, InBatch}
    case LoopQuit => s.place in {Idle, InDispatch, InBatch}
  }

  function Written(count: nat): nat {
    Min(count + 1, EVENTFD_MAX)
  }

  function Next(s: Loop, st: Step): Loop
    requires Legal(s, st)
  {
    match st
    case StartLoop => s.(place := AtTop, quit := false)
    case TestQuit => s.(place := if s.quit then Idle else AtPoll)
    case PollReturn(wake) => s.(place := InDispatch, wakeActive := wake)
    case ReadEventfd => s.(wakeActive := false, count := 0)
    case EndDispatch => s.(place := BeforeSwap, calling := true)
    case Swap => s.(place := InBatch, batch := s.pending, pending := [])
    case RunNext => s.(batch := s.batch[1..], ran := s.ran + [s.batch[0]])
    case EndBatch => s.(place := AtTop, calling := false)
    case LoopPush(f) => Pushed(s, f).(loopOwes := s.calling)
    case LoopQuit => s.(quit := true)
    case LoopWake => s.(loopOwes := false, count := Written(s.count))
    case Push(t, f) => Pushed(s, f).(owing := s.owing + {t})
    case SetQuit(t) => s.(quit := true, owing := s.owing + {t})
    case Wake(t) => s.(owing := s.owing - {t}, count := Written(s.count))
  }

  function Pushed(s: Loop, f: Functor): Loop {
    s.(pending := s.pending + [f], queued := s.queued + [f])
  }

  predicate LegalFrom(s: Loop, steps: seq<Step>)
    decreases |steps|, 0
  {
    steps == [] ||
    (LegalFrom(s, steps[..|steps| - 1]) && Legal(RunFrom(s, steps[..|steps| - 1]), steps[|steps| - 1]))
  }

  function RunFrom(s: Loop, steps: seq<Step>): Loop
    requires LegalFrom(s, steps)
    decreases |steps|, 1
  {
    if steps == [] then s else Next(RunFrom(s, steps[..|steps| - 1]), steps[|steps| - 1])
  }

  lemma RunSnoc(s: Loop, steps: seq<Step>, st: Step)
    requires LegalFrom(s, steps) && Legal(RunFrom(s, steps), st)
    ensures LegalFrom(s, steps + [st]) && RunFrom(s, steps + [st]) == Next(RunFrom(s, steps), st)
  {
    assert (steps + [st])[..|steps|] == steps;
  }

  /** Some run from the start leads to `s`. */
  ghost predicate Reached(s: Loop) {
    exists steps :: LegalFrom(START, steps) && RunFrom(START, steps) == s
  }

  lemma StartIsReached()
    ensures Reached(START)
  {
    assert LegalFrom(START, []) && RunFrom(START, []) == START;
  }

  lemma NextIsReached(s: Loop, st: Step)
    requires Reached(s) && Legal(s, st)
    ensures Reached(Next(s, st))
  {
    var steps :| LegalFrom(START, steps) && RunFrom(START, steps) == s;
    RunSnoc(START, steps, st);
  }

  // ---------- what was done last ----------

  predicate None(steps: seq<Step>, of: Step -> bool) {
    forall i :: 0 <= i < |steps| ==> !of(steps[i])
  }

  /** Some step of the one kind was made, and none of the other kind followed. */
  predicate Since(steps: seq<Step>, made: Step -> bool, undone: Step -> bool) {
    exists i :: 0 <= i < |steps| && made(steps[i]) && None(steps[i + 1..], undone)
  }

  lemma NoneSnoc(steps: seq<Step>, st: Step, of: Step -> bool)
    ensures None(steps + [st], of) <==> None(steps, of) && !of(st)
  {
    assert (steps + [st])[|steps|] == st;
    assert forall i :: 0 <= i < |steps| ==> (steps + [st])[i] == steps[i];
  }

  lemma SinceSnoc(steps: seq<Step>, st: Step, made: Step -> bool, undone: Step -> bool)
    ensures None(steps + [st], undone) <==> None(steps, undone) && !undone(st)
    ensures Since(steps + [st], made, undone) <==> made(st) || (Since(steps, made, undone) && !undone(st))
  {
    var all := steps + [st];
    NoneSnoc(steps, st, undone);
    assert all[|steps|] == st && None(all[|steps| + 1..], undone);
    forall i | 0 <= i < |steps|
      ensures all[i] == steps[i] && (None(all[i + 1..], undone) <==> None(steps[i + 1..], undone) && !undone(st))
    {
      assert all[i + 1..] == steps[i + 1..] + [st];
      NoneSnoc(steps[i + 1..], st, undone);
    }
  }

  // ---------- functors are conserved ----------

  ghost predicate Conserved(s: Loop) {
    && s.ran + s.batch + s.pending == s.queued
    && (s.place != InBatch ==> s.batch == [])
    && (s.calling <==> s.place in {BeforeSwap, InBatch})
    && (s.loopOwes ==> s.calling)
  }

  lemma NextConserves(s: Loop, st: Step)
    requires Conserved(s) && Legal(s, st)
    ensures Conserved(Next(s, st))
  {
    match st
    case LoopPush(f) => assert s.ran + s.batch + (s.pending + [f]) == s.queued + [f];
    case Push(_, f) => assert s.ran + s.batch + (s.pending + [f]) == s.queued + [f];
    case RunNext => assert s.batch == [s.batch[0]] + s.batch[1..];
    case _ =>
  }

  lemma RanIsPrefix(s: Loop)
    requires Conserved(s)
    ensures s.ran <= s.queued
  {
    assert s.queued == s.ran + (s.batch + s.pending);
  }

  /** In every interleaving, the functors run so far, the rest of the batch and the queue are together
      everything ever queued, in lock order: each runs at most once, none is lost, none overtakes. */
  lemma {:induction false} FunctorsAreConserved(s: Loop, steps: seq<Step>)
    requires Conserved(s) && LegalFrom(s, steps)
    ensures Conserved(RunFrom(s, steps))
    ensures RunFrom(s, steps).ran <= RunFrom(s, steps).queued
  {
    if steps != [] {
      var init := steps[..|steps| - 1];
      FunctorsAreConserved(s, init);
      NextConserves(RunFrom(s, init), steps[|steps| - 1]);
    }
    RanIsPrefix(RunFrom(s, steps));
  }

  lemma NextKeepsProgress(s: Loop, st: Step, due: seq<Functor>)
    requires Conserved(s) && Legal(s, st) && due <= s.ran + s.batch
    ensures due <= Next(s, st).ran + Next(s, st).batch
  {
    if st.RunNext? {
      assert s.batch == [s.batch[0]] + s.batch[1..];
      assert s.ran + [s.batch[0]] + s.batch[1..] == s.ran + s.batch;
    }
  }

  lemma {:induction false} ProgressStays(s: Loop, steps: seq<Step>, due: seq<Functor>)
    requires Conserved(s) && LegalFrom(s, steps) && due <= s.ran + s.batch
    ensures due <= RunFrom(s, steps).ran + RunFrom(s, steps).batch
  {
    if steps != [] {
      var init := steps[..|steps| - 1];
      ProgressStays(s, init, due);
      FunctorsAreConserved(s, init);
      NextKeepsProgress(RunFrom(s, init), steps[|steps| - 1], due);
    }
  }

  /** Every functor pending at a swap has run by the end of that batch, whatever other threads do meanwhile,
      and in every state after it. */
  lemma SwappedBatchRuns(s: Loop, steps: seq<Step>)
    requires Conserved(s) && Legal(s, Swap) && LegalFrom(Next(s, Swap), steps)
    ensures var s' := RunFrom(Next(s, Swap), steps);
            s'.place != InBatch ==> s.ran + s.pending <= s'.ran
  {
    NextConserves(s, Swap);
    assert s.ran + s.pending == s.ran + s.batch + s.pending;
    ProgressStays(Next(s, Swap), steps, s.ran + s.pending);
    FunctorsAreConserved(Next(s, Swap), steps);
    var s' := RunFrom(Next(s, Swap), steps);
    assert s'.batch == [] ==> s'.ran + s'.batch == s'.ran;
  }

  // ---------- no wakeup is lost ----------

  /** The next poll returns at once, or some thread is about to make it. */
  ghost predicate Awake(s: Loop) {
    s.count > 0 || s.owing != {} || s.loopOwes
  }

  /** Work that the swap of this pass does not take will not be slept on. */
  ghost predicate Covered(s: Loop) {
    && (s.place in {Idle, AtTop, AtPoll, InBatch} && s.pending != [] ==> Awake(s))
    && (s.place == AtPoll && s.quit ==> Awake(s))
  }

  /** What the property needs of the loop's own thread: it queues nothing while the loop is not running. */
  predicate NoIdlePush(s: Loop, steps: seq<Step>)
    requires LegalFrom(s, steps)
  {
    steps == [] ||
    (var init := steps[..|steps| - 1];
     NoIdlePush(s, init) && (steps[|steps| - 1].LoopPush? ==> RunFrom(s, init).place != Idle))
  }

  lemma NextCovers(s: Loop, st: Step)
    requires Conserved(s) && Covered(s) && Legal(s, st)
    requires st.LoopPush? ==> s.place != Idle
    ensures Covered(Next(s, st))
  {
  }

  /** In every interleaving: while the loop thread is at poll, with functors pending or quit requested,
      the eventfd is readable or some thread stands between its push (or its quit) and its wakeup. */
  lemma {:induction false} NoLostWakeup(s: Loop, steps: seq<Step>)
    requires Conserved(s) && Covered(s) && LegalFrom(s, steps) && NoIdlePush(s, steps)
    ensures var s' := RunFrom(s, steps);
            && Covered(s')
            && (s'.place == AtPoll && (s'.pending != [] || s'.quit) ==> s'.count > 0 || s'.owing != {})
  {
    if steps != [] {
      var init := steps[..|steps| - 1];
      NoLostWakeup(s, init);
      FunctorsAreConserved(s, init);
      NextCovers(RunFrom(s, init), steps[|steps| - 1]);
    }
    FunctorsAreConserved(s, steps);
  }

  /** No run from `s` sleeps on work. */
  ghost predicate NeverSleepsOnWork(s: Loop) {
    forall steps :: LegalFrom(s, steps) && NoIdlePush(s, steps) ==>
      var s' := RunFrom(s, steps);
      s'.place == AtPoll && (s'.pending != [] || s'.quit) ==> s'.count > 0 || s'.owing != {}
  }

  lemma NoIdlePushSnoc(s: Loop, steps: seq<Step>, st: Step)
    requires LegalFrom(s, steps) && Legal(RunFrom(s, steps), st) && NoIdlePush(s, steps) && !st.LoopPush?
    ensures LegalFrom(s, steps + [st]) && RunFrom(s, steps + [st]) == Next(RunFrom(s, steps), st)
    ensures NoIdlePush(s, steps + [st])
  {
    RunSnoc(s, steps, st);
    assert (steps + [st])[..|steps|] == steps;
  }

  /** Started as it is, the loop goes to poll with what is pending. */
  lemma StartGoesToPoll(s: Loop) returns (steps: seq<Step>)
    requires s.place == Idle && !s.loopOwes
    ensures LegalFrom(s, steps) && NoIdlePush(s, steps)
    ensures RunFrom(s, steps) == s.(place := AtPoll, quit := false)
  {
    steps := [];
    NoIdlePushSnoc(s, steps, StartLoop);
    steps := steps + [StartLoop];
    NoIdlePushSnoc(s, steps, TestQuit);
    steps := steps + [TestQuit];
  }

  /** A loop about to start is safe exactly when nothing is pending or the eventfd already tells. */
  lemma SafeToStartIff(s: Loop)
    requires Conserved(s) && s.place == Idle
    ensures NeverSleepsOnWork(s) <==> s.pending == [] || s.count > 0 || s.owing != {}
  {
    if s.pending == [] || s.count > 0 || s.owing != {} {
      forall steps | LegalFrom(s, steps) && NoIdlePush(s, steps)
        ensures var s' := RunFrom(s, steps);
                s'.place == AtPoll && (s'.pending != [] || s'.quit) ==> s'.count > 0 || s'.owing != {}
      {
        NoLostWakeup(s, steps);
      }
    } else {
      var steps := StartGoesToPoll(s);
    }
  }

  /** The unsafe start is reachable: a functor that the loop's own thread queues before `loop` is slept on. */
  lemma EarlyPushIsSleptOn(f: Functor)
    ensures exists steps ::
      && LegalFrom(START, steps)
      && var s := RunFrom(START, steps);
         s.place == AtPoll && s.pending == [f] && s.count == 0 && s.owing == {} && !s.loopOwes
  {
    var a := [] + [LoopPush(f)];
    var b := a + [StartLoop];
    assert LegalFrom(START, []);
    RunSnoc(START, [], LoopPush(f));
    RunSnoc(START, a, StartLoop);
    RunSnoc(START, b, TestQuit);
    assert RunFrom(START, b + [TestQuit]).pending == [f];
  }

  // ---------- quitting ----------

  predicate NoStart(steps: seq<Step>) {
    None(steps, (st: Step) => st.StartLoop?)
  }

  lemma NextKeepsQuit(s: Loop, st: Step)
    requires Conserved(s) && s.quit && Legal(s, st) && !st.StartLoop?
    ensures Next(s, st).quit
    ensures Next(s, st).place == AtPoll ==> s.place == AtPoll && ByOther(st)
  {
  }

  /** Once quit is requested, the loop thread, wherever it stands, never enters another poll. */
  lemma {:induction false} QuitIsFinal(s: Loop, steps: seq<Step>)
    requires Conserved(s) && s.quit && LegalFrom(s, steps) && NoStart(steps)
    ensures RunFrom(s, steps).quit
    ensures RunFrom(s, steps).place == AtPoll ==>
              s.place == AtPoll && forall i :: 0 <= i < |steps| ==> ByOther(steps[i])
  {
    if steps != [] {
      var init := steps[..|steps| - 1];
      assert forall i :: 0 <= i < |init| ==> steps[i] == init[i];
      QuitIsFinal(s, init);
      FunctorsAreConserved(s, init);
      NextKeepsQuit(RunFrom(s, init), steps[|steps| - 1]);
    }
  }

  /** ... unless the request comes before `loop`, which clears it: a quit is honoured exactly if no start follows. */
  lemma StartForgetsQuit(s: Loop)
    requires s.place == Idle && !s.loopOwes
    ensures LegalFrom(s, [StartLoop, TestQuit]) && RunFrom(s, [StartLoop, TestQuit]).place == AtPoll
  {
    assert LegalFrom(s, []);
    RunSnoc(s, [], StartLoop);
    RunSnoc(s, [] + [StartLoop], TestQuit);
    assert [] + [StartLoop] + [TestQuit] == [StartLoop, TestQuit];
  }

  lemma NextFlags(s: Loop, st: Step)
    requires Legal(s, st)
    ensures Next(s, st).quit <==> st.LoopQuit? || st.SetQuit? || (s.quit && !st.StartLoop?)
    ensures Next(s, st).count > 0 <==> st.LoopWake? || st.Wake? || (s.count > 0 && !st.ReadEventfd?)
    ensures Next(s, st).wakeActive <==>
              st == PollReturn(true) || (s.wakeActive && !st.PollReturn? && !st.ReadEventfd?)
  {
  }

  /** Over every interleaving: the loop is to quit if and only if some thread asked for it and no start has
      followed, or it was to quit before and there was no start. */
  lemma {:induction false} QuitIff(s: Loop, steps: seq<Step>)
    requires LegalFrom(s, steps)
    ensures RunFrom(s, steps).quit <==>
              || Since(steps, (st: Step) => st.LoopQuit? || st.SetQuit?, (st: Step) => st.StartLoop?)
              || (s.quit && None(steps, (st: Step) => st.StartLoop?))
  {
    if steps != [] {
      var init, st := steps[..|steps| - 1], steps[|steps| - 1];
      assert steps == init + [st];
      QuitIff(s, init);
      NextFlags(RunFrom(s, init), st);
      SinceSnoc(init, st, (st: Step) => st.LoopQuit? || st.SetQuit?, (st: Step) => st.StartLoop?);
    }
  }

  // ---------- the eventfd ----------

  /** Over every interleaving: the eventfd is readable if and only if some thread wrote to it and it was not read
      since, or it was readable before and was not read. So one wakeup never wakes the loop twice. */
  lemma {:induction false} ReadableIff(s: Loop, steps: seq<Step>)
    requires LegalFrom(s, steps)
    ensures RunFrom(s, steps).count > 0 <==>
              || Since(steps, (st: Step) => st.LoopWake? || st.Wake?, (st: Step) => st.ReadEventfd?)
              || (s.count > 0 && None(steps, (st: Step) => st.ReadEventfd?))
  {
    if steps != [] {
      var init, st := steps[..|steps| - 1], steps[|steps| - 1];
      assert steps == init + [st];
      ReadableIff(s, init);
      NextFlags(RunFrom(s, init), st);
      SinceSnoc(init, st, (st: Step) => st.LoopWake? || st.Wake?, (st: Step) => st.ReadEventfd?);
    }
  }

  /** Over every interleaving: after a poll that reports the eventfd, the loop thread reads it before it swaps. */
  lemma {:induction false} ReportedIsRead(s: Loop, steps: seq<Step>)
    requires LegalFrom(s, steps) && !s.wakeActive
    ensures var unread :=
              Since(steps, (st: Step) => st == PollReturn(true), (st: Step) => st.PollReturn? || st.ReadEventfd?);
            && (RunFrom(s, steps).wakeActive <==> unread)
            && (unread ==> !Legal(RunFrom(s, steps), EndDispatch))
  {
    if steps != [] {
      var init, st := steps[..|steps| - 1], steps[|steps| - 1];
      assert steps == init + [st];
      ReportedIsRead(s, init);
      NextFlags(RunFrom(s, init), st);
      SinceSnoc(init, st, (st: Step) => st == PollReturn(true), (st: Step) => st.PollReturn? || st.ReadEventfd?);
    }
  }
}

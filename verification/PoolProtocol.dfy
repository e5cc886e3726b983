// The worker protocol of base/ThreadPool.cpp as interleaved steps. A region under the mutex is one step.
module PoolProtocol {
  import opened Octets

  type Task = nat

  /** Where a worker stands; `Woken` has left the condition's queue and waits for the mutex. */
  datatype Place = AtWhile | AtTake | Waiting | Woken | Executing | Exited

  datatype Pool = Pool(
    running: bool,
    queue: seq<Task>,
    workers: seq<Place>,
    late: seq<nat>,               // tasks each worker took since `stop`
    submitted: seq<Task>,
    taken: seq<Task>)

  type WorkerId = nat

  datatype Step =
    | Run(task: Task)
    | RunAndNotify(task: Task, w: WorkerId)
    | Stop
    | Spurious(w: WorkerId)
    | TestRunning(w: WorkerId)
    | Take(w: WorkerId)           // entering `take`, or going on after `wait`
    | Finish(w: WorkerId)

  ghost predicate Shaped(s: Pool) {
    |s.late| == |s.workers|
  }

  predicate At(s: Pool, w: WorkerId, place: Place) {
    w < |s.workers| && s.workers[w] == place
  }

  /** `notify` wakes a waiting worker if there is one. */
  predicate Legal(s: Pool, st: Step) {
    match st
    case Run(_) => Waiting !in s.workers
    case RunAndNotify(_, w) => At(s, w, Waiting)
    case Stop => true
    case Spurious(w) => At(s, w, Waiting)
    case TestRunning(w) => At(s, w, AtWhile)
    case Take(w) => At(s, w, AtTake) || At(s, w, Woken)
    case Finish(w) => At(s, w, Executing)
  }

  /** A pool of no threads runs a submitted task in its caller. */
  function Submitted(s: Pool, task: Task): Pool {
    if s.workers == [] then s.(submitted := s.submitted + [task], taken := s.taken + [task])
    else s.(submitted := s.submitted + [task], queue := s.queue + [task])
  }

  function Moved(s: Pool, w: WorkerId, place: Place): Pool
    requires w < |s.workers|
  {
    s.(workers := s.workers[w := place])
  }

  function WakeAll(workers: seq<Place>): (r: seq<Place>)
    ensures |r| == |workers| && Waiting !in r
    ensures forall w :: 0 <= w < |r| ==> r[w] == if workers[w] == Waiting then Woken else workers[w]
  {
    if workers == [] then []
    else WakeAll(workers[..|workers| - 1]) +
         [if workers[|workers| - 1] == Waiting then Woken else workers[|workers| - 1]]
  }

  ghost function Next(s: Pool, st: Step): Pool
    requires Shaped(s) && Legal(s, st)
  {
    match st
    case Run(task) => Submitted(s, task)
    case RunAndNotify(task, w) => Moved(Submitted(s, task), w, Woken)
    case Stop => s.(running := false, workers := WakeAll(s.workers))
    case Spurious(w) => Moved(s, w, Woken)
    case TestRunning(w) => Moved(s, w, if s.running then AtTake else Exited)
    case Take(w) =>
      if s.queue == [] then Moved(s, w, if s.running then Waiting else AtWhile)
      else
        Moved(s, w, Executing).(queue := s.queue[1..], taken := s.taken + [s.queue[0]],
                                late := if s.running then s.late else s.late[w := s.late[w] + 1])
    case Finish(w) => Moved(s, w, AtWhile)
  }

  /** `start`: every thread begins at the test of `running_`. */
  ghost function Started(n: nat): Pool {
    Pool(true, [], seq(n, _ => AtWhile), seq(n, _ => 0), [], [])
  }

  ghost predicate LegalFrom(s: Pool, steps: seq<Step>)
    requires Shaped(s)
    decreases |steps|, 0
  {
    steps == [] ||
    (LegalFrom(s, steps[..|steps| - 1]) && Legal(RunFrom(s, steps[..|steps| - 1]), steps[|steps| - 1]))
  }

  ghost function RunFrom(s: Pool, steps: seq<Step>): (s': Pool)
    requires Shaped(s) && LegalFrom(s, steps)
    ensures Shaped(s')
    decreases |steps|, 1
  {
    if steps == [] then s else Next(RunFrom(s, steps[..|steps| - 1]), steps[|steps| - 1])
  }

  // ---------- no task is stranded ----------

  function Count(s: Pool, place: Place): nat {
    multiset(s.workers)[place]
  }

  lemma CountMoved(s: Pool, w: WorkerId, to: Place, place: Place)
    requires w < |s.workers|
    ensures Count(Moved(s, w, to), place)
         == Count(s, place) - (if s.workers[w] == place then 1 else 0) + (if to == place then 1 else 0)
  {
  }

  /** Nobody sleeps unless enough others are on their way to take what is queued. */
  ghost predicate Watched(s: Pool) {
    && (s.running && Waiting in s.workers ==> |s.queue| <= Count(s, Woken))
    && (!s.running ==> Waiting !in s.workers)
    && s.taken + s.queue == s.submitted
    && (s.workers == [] ==> s.queue == [])
  }

  lemma WorkerIsWatched(s: Pool, st: Step)
    requires Shaped(s) && Watched(s) && Legal(s, st) && !st.Stop? && !st.Run? && !st.RunAndNotify?
    ensures Watched(Next(s, st))
  {
    var s' := Next(s, st);
    CountMoved(s, st.w, s'.workers[st.w], Woken);
    if st.Take? && s.queue != [] {
      HeadMoves(s.taken, s.queue);
    }
    assert Waiting in s'.workers ==> Waiting in s.workers || s'.workers[st.w] == Waiting;
  }

  lemma SubmitIsWatched(s: Pool, st: Step)
    requires Shaped(s) && Watched(s) && Legal(s, st) && (st.Run? || st.RunAndNotify?)
    ensures Watched(Next(s, st))
  {
    assert s.taken + (s.queue + [st.task]) == s.taken + s.queue + [st.task];
    if st.RunAndNotify? {
      CountMoved(s, st.w, Woken, Woken);
    }
  }

  /** In every interleaving: while the pool runs and some worker is blocked in `wait`, there are at least as many
      workers woken and not yet through `take` as tasks queued; after `stop` nobody is blocked; and the tasks
      taken so far and the queue are together all tasks submitted, in order. */
  lemma {:induction false} NoStrandedTask(n: nat, steps: seq<Step>)
    requires LegalFrom(Started(n), steps)
    ensures Watched(RunFrom(Started(n), steps))
  {
    if steps != [] {
      var s, st := RunFrom(Started(n), steps[..|steps| - 1]), steps[|steps| - 1];
      NoStrandedTask(n, steps[..|steps| - 1]);
      if st.Run? || st.RunAndNotify? {
        SubmitIsWatched(s, st);
      } else if !st.Stop? {
        WorkerIsWatched(s, st);
      }
    }
  }

  /** A worker that can move on its own. */
  predicate Moves(place: Place) {
    place in {AtWhile, AtTake, Woken, Executing}
  }

  /** So a running pool only comes to rest with an empty queue. */
  lemma RestingPoolIsDrained(n: nat, steps: seq<Step>)
    requires LegalFrom(Started(n), steps)
    requires var s := RunFrom(Started(n), steps);
             s.running && forall w :: 0 <= w < |s.workers| ==> !Moves(s.workers[w])
    ensures RunFrom(Started(n), steps).queue == []
  {
    NoStrandedTask(n, steps);
    RunningHasNoExit(n, steps);
    var s := RunFrom(Started(n), steps);
    assert s.workers != [] ==> s.workers[0] == Waiting;
    assert Woken !in s.workers;
  }

  lemma NextHasNoExit(s: Pool, st: Step)
    requires Shaped(s) && Legal(s, st) && (s.running ==> Exited !in s.workers)
    ensures Next(s, st).running ==> Exited !in Next(s, st).workers
  {
  }

  lemma {:induction false} RunningHasNoExit(n: nat, steps: seq<Step>)
    requires LegalFrom(Started(n), steps)
    ensures var s := RunFrom(Started(n), steps);
            s.running ==> Exited !in s.workers
  {
    if steps != [] {
      RunningHasNoExit(n, steps[..|steps| - 1]);
      NextHasNoExit(RunFrom(Started(n), steps[..|steps| - 1]), steps[|steps| - 1]);
    }
  }

  // ---------- stopping ----------

  /** What is left of a worker's life after `stop`. */
  ghost predicate Winding(s: Pool) {
    Shaped(s) && forall w {:trigger s.late[w]} :: 0 <= w < |s.workers| ==>
      && s.late[w] <= 1
      && (s.running ==> s.late[w] == 0)
      && (s.late[w] == 1 ==> s.workers[w] in {Executing, AtWhile, Exited})
  }

  lemma NextWinds(s: Pool, st: Step)
    requires Shaped(s) && Winding(s) && Legal(s, st)
    ensures Winding(Next(s, st))
  {
  }

  /** After `stop`, every worker starts at most one more task. */
  lemma {:induction false} AtMostOneMoreEach(n: nat, steps: seq<Step>)
    requires LegalFrom(Started(n), steps)
    ensures Winding(RunFrom(Started(n), steps))
  {
    if steps != [] {
      AtMostOneMoreEach(n, steps[..|steps| - 1]);
      NextWinds(RunFrom(Started(n), steps[..|steps| - 1]), steps[|steps| - 1]);
    }
  }

  /** How many more steps the workers can make once the pool is stopped. */
  function Remaining(s: Pool): nat {
    3 * (Count(s, AtTake) + Count(s, Woken)) + 2 * Count(s, Executing) + Count(s, AtWhile)
  }

  predicate ByWorker(st: Step) {
    st.TestRunning? || st.Take? || st.Finish?
  }

  function WorkerSteps(steps: seq<Step>): nat {
    if steps == [] then 0
    else WorkerSteps(steps[..|steps| - 1]) + (if ByWorker(steps[|steps| - 1]) then 1 else 0)
  }

  lemma StoppedStep(s: Pool, st: Step)
    requires Shaped(s) && !s.running && Waiting !in s.workers && Legal(s, st)
    ensures var s' := Next(s, st);
            && !s'.running && Waiting !in s'.workers
            && Remaining(s') + (if ByWorker(st) then 1 else 0) <= Remaining(s)
  {
    if ByWorker(st) {
      var to := Next(s, st).workers[st.w];
      CountMoved(s, st.w, to, AtTake);
      CountMoved(s, st.w, to, Woken);
      CountMoved(s, st.w, to, Executing);
      CountMoved(s, st.w, to, AtWhile);
    } else if st.Stop? {
      assert Next(s, st).workers == s.workers;
    }
  }

  /** A stopped pool makes at most `Remaining` more worker steps, whatever is submitted meanwhile ... */
  lemma {:induction false} StoppedPoolWindsDown(s: Pool, steps: seq<Step>)
    requires Shaped(s) && !s.running && Waiting !in s.workers && LegalFrom(s, steps)
    ensures !RunFrom(s, steps).running && Waiting !in RunFrom(s, steps).workers
    ensures Remaining(RunFrom(s, steps)) + WorkerSteps(steps) <= Remaining(s)
  {
    if steps != [] {
      StoppedPoolWindsDown(s, steps[..|steps| - 1]);
      StoppedStep(RunFrom(s, steps[..|steps| - 1]), steps[|steps| - 1]);
    }
  }

  /** The workers already past the test of `running_` when the pool is stopped. */
  function Committed(s: Pool): nat {
    Count(s, AtTake) + Count(s, Woken)
  }

  lemma CommittedStep(s: Pool, st: Step)
    requires Shaped(s) && !s.running && Waiting !in s.workers && s.workers != [] && Legal(s, st)
    ensures |Next(s, st).taken| + Committed(Next(s, st)) <= |s.taken| + Committed(s)
    ensures Next(s, st).workers != []
  {
    if ByWorker(st) {
      MoveCounts(s, st);
    } else if st.Stop? {
      assert Next(s, st).workers == s.workers;
    }
  }

  /** Only those can still take a task, whatever is submitted meanwhile. */
  lemma {:induction false} StopDropsTheRest(s: Pool, steps: seq<Step>)
    requires Shaped(s) && !s.running && Waiting !in s.workers && s.workers != [] && LegalFrom(s, steps)
    ensures |RunFrom(s, steps).taken| + Committed(RunFrom(s, steps)) <= |s.taken| + Committed(s)
    ensures RunFrom(s, steps).workers != []
  {
    if steps != [] {
      StopDropsTheRest(s, steps[..|steps| - 1]);
      StoppedPoolWindsDown(s, steps[..|steps| - 1]);
      CommittedStep(RunFrom(s, steps[..|steps| - 1]), steps[|steps| - 1]);
    }
  }

  predicate NoSubmits(steps: seq<Step>) {
    forall i :: 0 <= i < |steps| ==> !steps[i].Run? && !steps[i].RunAndNotify?
  }

  lemma MoveCounts(s: Pool, st: Step)
    requires Shaped(s) && !s.running && Legal(s, st) && ByWorker(st)
    ensures Committed(Next(s, st)) == Committed(s) - (if st.Take? then 1 else 0)
  {
    CountMoved(s, st.w, Next(s, st).workers[st.w], AtTake);
    CountMoved(s, st.w, Next(s, st).workers[st.w], Woken);
  }

  lemma StoppedTake(s: Pool, st: Step)
    requires Shaped(s) && !s.running && Waiting !in s.workers && Legal(s, st) && !st.Run? && !st.RunAndNotify?
    ensures var s' := Next(s, st);
            && s'.taken + s'.queue == s.taken + s.queue
            && |s'.taken| + Min(Committed(s'), |s'.queue|) == |s.taken| + Min(Committed(s), |s.queue|)
  {
    if st.Stop? {
      assert Next(s, st).workers == s.workers;
    } else {
      MoveCounts(s, st);
      if st.Take? && s.queue != [] {
        HeadMoves(s.taken, s.queue);
      }
    }
  }

  lemma HeadMoves(taken: seq<Task>, queue: seq<Task>)
    requires queue != []
    ensures taken + [queue[0]] + queue[1..] == taken + queue
  {
    assert queue == [queue[0]] + queue[1..];
  }

  lemma {:induction false} StoppedTakes(s: Pool, steps: seq<Step>)
    requires Shaped(s) && !s.running && Waiting !in s.workers && LegalFrom(s, steps) && NoSubmits(steps)
    ensures var s' := RunFrom(s, steps);
            && s'.taken + s'.queue == s.taken + s.queue
            && |s'.taken| + Min(Committed(s'), |s'.queue|) == |s.taken| + Min(Committed(s), |s.queue|)
  {
    if steps != [] {
      var init := steps[..|steps| - 1];
      StoppedTakes(s, init);
      StoppedPoolWindsDown(s, init);
      StoppedTake(RunFrom(s, init), steps[|steps| - 1]);
    }
  }

  /** Exactly what `stop` drops: once all workers have exited, each worker that was past the test of `running_` has
      taken one task, oldest first, as far as they go; the rest stays. All are taken if and only if they suffice. */
  lemma StopDropsExactly(s: Pool, steps: seq<Step>)
    requires Shaped(s) && !s.running && Waiting !in s.workers && LegalFrom(s, steps) && NoSubmits(steps)
    requires forall place <- RunFrom(s, steps).workers :: place == Exited
    ensures var s', n := RunFrom(s, steps), Min(Committed(s), |s.queue|);
            && s'.taken == s.taken + s.queue[..n] && s'.queue == s.queue[n..]
            && (s'.queue == [] <==> |s.queue| <= Committed(s))
  {
    StoppedTakes(s, steps);
    var s', n := RunFrom(s, steps), Min(Committed(s), |s.queue|);
    assert AtTake !in s'.workers && Woken !in s'.workers;
    assert s'.taken == (s'.taken + s'.queue)[..|s'.taken|] && s'.queue == (s'.taken + s'.queue)[|s'.taken|..];
    assert s.taken + s.queue[..n] == (s.taken + s.queue)[..|s.taken| + n];
    assert s.queue[n..] == (s.taken + s.queue)[|s.taken| + n..];
  }

  /** `due` is what was submitted before; those of it not yet taken are fewer than the workers that can still take. */
  ghost predicate Within(s: Pool, due: seq<Task>) {
    due <= s.taken + s.queue && |due| - |s.taken| <= Committed(s)
  }

  lemma NextWithin(s: Pool, st: Step, due: seq<Task>)
    requires Shaped(s) && !s.running && Waiting !in s.workers && s.workers != [] && Legal(s, st) && Within(s, due)
    ensures Within(Next(s, st), due)
  {
    var s' := Next(s, st);
    if ByWorker(st) {
      MoveCounts(s, st);
      if st.Take? && s.queue != [] {
        HeadMoves(s.taken, s.queue);
      }
    } else if st.Stop? {
      assert s'.workers == s.workers;
    } else if st.Run? {
      assert s'.taken + s'.queue == s.taken + s.queue + [st.task];
    }
  }

  lemma {:induction false} StaysWithin(s: Pool, steps: seq<Step>, due: seq<Task>)
    requires Shaped(s) && !s.running && Waiting !in s.workers && s.workers != [] && LegalFrom(s, steps)
    requires Within(s, due)
    ensures Within(RunFrom(s, steps), due)
  {
    if steps != [] {
      var init := steps[..|steps| - 1];
      StaysWithin(s, init, due);
      StoppedPoolWindsDown(s, init);
      StopDropsTheRest(s, init);
      NextWithin(RunFrom(s, init), steps[|steps| - 1], due);
    }
  }

  /** Whatever is submitted meanwhile: once all workers have exited, every task submitted before `stop` was taken if
      and only if there were no more of them than workers past the test of `running_`. */
  lemma StopTakesAllIff(s: Pool, steps: seq<Step>)
    requires Shaped(s) && !s.running && Waiting !in s.workers && s.workers != [] && LegalFrom(s, steps)
    requires forall place <- RunFrom(s, steps).workers :: place == Exited
    ensures s.taken + s.queue <= RunFrom(s, steps).taken <==> |s.queue| <= Committed(s)
  {
    var s', due := RunFrom(s, steps), s.taken + s.queue;
    assert AtTake !in s'.workers && Woken !in s'.workers;
    StopDropsTheRest(s, steps);
    if |s.queue| <= Committed(s) {
      StaysWithin(s, steps, due);
      assert due == (s'.taken + s'.queue)[..|due|] == s'.taken[..|due|];
    }
  }

  /** ... and until all workers have exited, one of them can make a step: so `stop` joins them all. */
  lemma StoppedPoolMovesOrIsDone(s: Pool)
    requires !s.running && Waiting !in s.workers
    ensures (forall w :: 0 <= w < |s.workers| ==> s.workers[w] == Exited)
        <==> !exists st :: ByWorker(st) && Legal(s, st)
  {
    forall w | 0 <= w < |s.workers| && s.workers[w] != Exited
      ensures exists st :: ByWorker(st) && Legal(s, st)
    {
      var st := if s.workers[w] == AtWhile then TestRunning(w)
                else if s.workers[w] == Executing then Finish(w) else Take(w);
      assert ByWorker(st) && Legal(s, st);
    }
  }
}

// The pool object of base/ThreadPool.cpp, updated in place under its mutex. Each method is what one thread does
// between taking the mutex and giving it up, which is one step of PoolProtocol.
module ThreadPool {
  import opened PoolProtocol

  datatype Taken = Wait | Got(task: Task) | Nothing

  class ThreadPool {
    var running: bool
    var queue: seq<Task>
    const threads: nat

    ghost var steps: seq<Step>
    ghost var state: Pool

    ghost predicate Valid()
      reads this
    {
      && LegalFrom(Started(threads), steps) && state == RunFrom(Started(threads), steps)
      && running == state.running && queue == state.queue && |state.workers| == threads
    }

    /** `start`: the threads begin at the test of `running_`. */
    constructor (numThreads: nat)
      ensures Valid() && state == Started(numThreads) && threads == numThreads && running && queue == []
    {
      running, queue, threads := true, [], numThreads;
      steps, state := [], Started(numThreads);
    }

    ghost method Record(st: Step)
      requires LegalFrom(Started(threads), steps) && state == RunFrom(Started(threads), steps) && Legal(state, st)
      modifies this`steps, this`state
      ensures LegalFrom(Started(threads), steps) && state == RunFrom(Started(threads), steps)
      ensures state == Next(old(state), st)
    {
      assert (steps + [st])[..|steps|] == steps;
      steps, state := steps + [st], Next(state, st);
    }

    /** `wakes` is the waiting worker that `notify` happens to choose, if there is one. */
    method Run(task: Task, ghost wakes: WorkerId) returns (calledHere: bool)
      requires Valid() && (Waiting in state.workers ==> At(state, wakes, Waiting))
      modifies this
      ensures Valid()
      ensures calledHere <==> threads == 0
      ensures queue == if calledHere then old(queue) else old(queue) + [task]
      ensures state == Next(old(state), if Waiting in old(state).workers then RunAndNotify(task, wakes)
                                        else Step.Run(task))
    {
      calledHere := threads == 0;
      if !calledHere {
        queue := queue + [task];
      }
      Record(if Waiting in state.workers then RunAndNotify(task, wakes) else Step.Run(task));
    }

    method Stop()
      requires Valid()
      modifies this
      ensures Valid() && !running && queue == old(queue)
      ensures state == Next(old(state), Step.Stop) && Waiting !in state.workers
    {
      running := false;
      Record(Step.Stop);
    }

    /** The region of `take`, from the mutex to a `wait` or to the end; after a wakeup it is entered again. */
    method Take(ghost w: WorkerId) returns (taken: Taken)
      requires Valid() && (At(state, w, AtTake) || At(state, w, Woken))
      modifies this
      ensures Valid() && running == old(running) && state == Next(old(state), Step.Take(w))
      ensures taken.Got? <==> old(queue) != []
      ensures taken.Got? ==> taken.task == old(queue)[0] && queue == old(queue)[1..]
      ensures taken.Wait? <==> old(queue) == [] && running
      ensures taken.Wait? <==> At(state, w, Waiting)
    {
      if queue == [] && running {
        taken := Wait;
      } else if queue != [] {
        taken := Got(queue[0]);
        queue := queue[1..];
      } else {
        taken := Nothing;
      }
      Record(Step.Take(w));
    }
  }
}

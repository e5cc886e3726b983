// The objects of net/Timer.cpp and net/TimerQueue.cpp, updated in place, proved against TimerRounds.
module TimerQueue {
  import opened Octets
  import opened TimerRounds

  class Timer {
    const id: TimerId
    var expiredTime: int

    constructor (id: TimerId, timeout: int)
      ensures this.id == id && expiredTime == timeout
    {
      this.id := id;
      expiredTime := timeout;
    }

    /** A periodic timer moves to `now + interval`; a one-shot one gets the invalid time 0. */
    method Restart(now: int)
      modifies this
      ensures expiredTime == if id.interval > 0 then now + id.interval else 0
    {
      if id.Repeats() {
        expiredTime := now + id.interval;
      } else {
        expiredTime := 0;
      }
    }
  }

  class TimerQueue {
    var timers: seq<Entry>              // a std::set, so kept sorted by (expiry, address)
    var active: set<ActiveTimer>
    var calling: bool
    var canceling: set<ActiveTimer>
    var fd: TimerFd
    var objects: map<TimerId, Timer>    // what the shared pointers point to

    function Value(): Queue
      reads this
    {
      Queue(timers, active, calling, canceling, fd)
    }

    /** The entry's pointer leads to its own timer, whose current expiry is the entry's key. */
    ghost predicate Tracks(e: Entry)
      reads this`objects, objects.Values
    {
      && e.timer in objects
      && objects[e.timer].id == e.timer
      && objects[e.timer].expiredTime == e.expiry
    }

    ghost predicate AllTrack(entries: seq<Entry>)
      reads this`objects, objects.Values
    {
      forall e <- entries :: Tracks(e)
    }

    ghost predicate Valid()
      reads this, objects.Values
    {
      SameTimers(timers, active) && AllTrack(timers)
    }

    constructor ()
      ensures Valid() && Value() == EMPTY
    {
      timers, active, calling, canceling, fd, objects := [], {}, false, {}, Disarmed, map[];
    }

    method Insert(t: TimerId) returns (isEarliest: bool)
      requires Valid() && t in objects && objects[t].id == t && IsNew(timers, t)
      modifies this`timers, this`active
      ensures Valid() && isEarliest == IsEarliest(old(Value()), objects[t].expiredTime)
      ensures Value() == TimerRounds.Insert(old(Value()), Entry(objects[t].expiredTime, t))
    {
      var e := Entry(objects[t].expiredTime, t);
      InsertFacts(Value(), e);
      assert |timers| == |active|;
      isEarliest := timers == [] || e.expiry < timers[0].expiry;
      assert e !in timers && Key(t) !in active;
      assert AllTrack(Inserted(timers, e)) by {
        InsertedElements(timers, e);
      }
      timers, active := Inserted(timers, e), active + {Key(t)};
      assert |timers| == |active|;
    }

    /** `addTimer` on the loop's own thread: a new object, then `addTimerInLoop`. */
    method AddTimer(t: TimerId, timeout: int, clock: int)
      requires Valid() && IsNew(timers, t)
      modifies this
      ensures Valid() && Value() == Apply(old(Value()), Add(t, timeout, clock))
      ensures t in objects && fresh(objects[t]) && objects == old(objects)[t := objects[t]]
    {
      var timer := new Timer(t, timeout);
      objects := objects[t := timer];
      assert forall e <- timers :: Tracks(e);
      var isEarliest := Insert(t);
      if isEarliest {
        fd := Arm(timeout, clock);
      }
    }

    method CancelInLoop(t: TimerId)
      requires Valid()
      modifies this`timers, this`active, this`canceling
      ensures Valid() && Value() == Apply(old(Value()), Cancel(t))
      ensures !calling ==> canceling == old(canceling)
    {
      SizesAgree(timers);
      assert |timers| == |active|;
      ghost var before := Value();
      ActiveIff(before, t);
      CancelAgrees(before, t);
      WithoutElements(timers, t);
      if Key(t) in active {
        ghost var e := Entry(objects[t].expiredTime, t);
        assert e in timers && forall x <- timers :: x.timer == t ==> x == e;
        timers := Without(timers, t);
        active := active - {Key(t)};
      } else if calling {
        canceling := canceling + {Key(t)};
      }
      SizesAgree(timers);
      assert |timers| == |active|;
    }

    /** Takes timers out of the index by identity, one by one. */
    method Deactivate(expired: seq<Entry>)
      requires forall i :: 0 <= i < |expired| ==>
                 Key(expired[i].timer) in active && Key(expired[i].timer) !in Keys(expired[..i])
      modifies this`active
      ensures active == old(active) - Keys(expired)
    {
      for i := 0 to |expired|
        invariant active == old(active) - Keys(expired[..i])
      {
        KeysSnoc(expired, i);
        assert Key(expired[i].timer) in active;
        active := active - {Key(expired[i].timer)};
      }
      assert expired[..|expired|] == expired;
    }

    method GetExpired(now: int) returns (expired: seq<Entry>)
      requires Valid()
      modifies this`timers, this`active
      ensures Valid() && Value() == Expire(old(Value()), now)
      ensures expired == Due(old(Value()), now)
      ensures AllTrack(expired)
    {
      ExpiredFacts(Value(), now);
      var n := DueCount(timers, now);
      assert n == |timers| || now < timers[n].expiry;
      expired := timers[..n];
      Deactivate(expired);
      timers := timers[n..];
    }

    /** The start of `handleRead`: read the timerfd, take the due timers out, mark the batch as running. */
    method OpenBatch(now: int, fired: bool) returns (expired: seq<Entry>)
      requires Valid()
      modifies this`timers, this`active, this`fd, this`calling, this`canceling
      ensures Valid() && Value() == Opened(old(Value()), now, fired)
      ensures expired == Due(old(Value()), now) && AllTrack(expired)
    {
      expired := GetExpired(now);
      fd, calling, canceling := if fired then Disarmed else fd, true, {};
    }

    method RunOp(op: Op, ghost due: seq<Entry>)
      requires Valid() && Apart(Value(), due) && AllTrack(due) && Admissible(Value(), due, op)
      modifies this
      ensures Valid() && Value() == Apply(old(Value()), op)
      ensures AllTrack(due) && fresh(objects.Values - old(objects.Values))
    {
      match op
      case Add(t, expiry, clock) => AddTimer(t, expiry, clock);
      case Cancel(t) => CancelInLoop(t);
    }

    /** The body of one callback. */
    method RunCallback(ops: seq<Op>, ghost due: seq<Entry>)
      requires Valid() && Apart(Value(), due) && AllAdmissible(Value(), due, ops)
      requires AllTrack(due)
      modifies this
      ensures Valid() && Value() == ApplyAll(old(Value()), ops)
      ensures AllTrack(due) && fresh(objects.Values - old(objects.Values))
    {
      ghost var before := Value();
      assert ops[..0] == [];
      for i := 0 to |ops|
        invariant Valid() && Value() == ApplyAll(before, ops[..i])
        invariant AllTrack(due) && fresh(objects.Values - old(objects.Values))
      {
        AdmissibleAt(before, due, ops, i);
        ApplyAllAgrees(before, due, ops[..i]);
        assert ops[..i + 1][..i] == ops[..i];
        RunOp(ops[i], due);
      }
      assert ops[..|ops|] == ops;
    }

    method ResetOne(e: Entry, now: int)
      requires Valid() && Tracks(e) && IsNew(timers, e.timer)
      modifies this`timers, this`active, objects[e.timer]
      ensures Valid()
      ensures Value() == if Restarts(old(Value()), e)
                         then TimerRounds.Insert(old(Value()), Entry(now + e.timer.interval, e.timer))
                         else old(Value())
      ensures forall x :: x in timers ==> x in old(timers) || x.timer == e.timer
    {
      if e.timer.Repeats() && Key(e.timer) !in canceling {
        InsertedElements(timers, Entry(now + e.timer.interval, e.timer));
        objects[e.timer].Restart(now);
        var _ := Insert(e.timer);
      }
    }

    /** `i` timers of the batch have been looked at by `reset`. */
    ghost predicate ResetAt(before: Queue, expired: seq<Entry>, now: int, i: nat)
      reads this, objects.Values
    {
      && i <= |expired|
      && Valid() && Value() == Reinserted(before, expired[..i], now)
      && forall j :: i <= j < |expired| ==> IsNew(timers, expired[j].timer) && Tracks(expired[j])
    }

    method ResetNext(ghost before: Queue, expired: seq<Entry>, now: int, i: nat)
      requires ResetAt(before, expired, now, i) && i < |expired| && Distinct(expired)
      modifies this`timers, this`active, objects.Values
      ensures ResetAt(before, expired, now, i + 1)
    {
      assert expired[..i + 1] == expired[..i] + [expired[i]];
      assert forall j :: i < j < |expired| ==> Differ(expired[i].timer, expired[j].timer);
      ResetOne(expired[i], now);
    }

    method Reset(expired: seq<Entry>, now: int, validAt: int, armAt: int)
      requires Valid() && Apart(Value(), expired) && Distinct(expired)
      requires AllTrack(expired)
      modifies this`timers, this`active, this`fd, objects.Values
      ensures Valid()
      ensures Value() == Rearmed(Reinserted(old(Value()), expired, now), validAt, armAt)
    {
      ghost var before := Value();
      assert expired[..0] == [];
      for i := 0 to |expired|
        invariant ResetAt(before, expired, now, i)
      {
        ResetNext(before, expired, now, i);
      }
      assert expired[..|expired|] == expired;
      if timers != [] {
        if timers[0].expiry >= validAt {
          fd := Arm(timers[0].expiry, armAt);
        }
      }
    }

    /** `i` callbacks of the batch have run on what was `start`. */
    ghost predicate BatchAt(start: Queue, expired: seq<Entry>, scripts: Scripts, i: nat)
      reads this, objects.Values
    {
      && i <= |expired|
      && Valid() && Apart(Value(), expired) && AllTrack(expired)
      && Value() == ApplyAll(start, Flatten(expired[..i], scripts))
    }

    method RunNext(ghost start: Queue, expired: seq<Entry>, scripts: Scripts, i: nat)
      requires BatchAt(start, expired, scripts, i) && i < |expired|
      requires Agree(start) && Apart(start, expired)
      requires AllAdmissible(start, expired, Flatten(expired, scripts))
      modifies this
      ensures BatchAt(start, expired, scripts, i + 1)
      ensures fresh(objects.Values - old(objects.Values))
    {
      var script := Script(scripts, expired[i].timer);
      BatchStep(start, expired, scripts, i);
      RunCallback(script, expired);
    }

    /** The loop that runs the callbacks of the batch, cancelled ones included. */
    method RunBatch(expired: seq<Entry>, scripts: Scripts)
      requires Valid() && Apart(Value(), expired)
      requires AllAdmissible(Value(), expired, Flatten(expired, scripts))
      requires AllTrack(expired)
      modifies this
      ensures Valid()
      ensures Value() == ApplyAll(old(Value()), Flatten(expired, scripts)).(calling := false)
      ensures Apart(Value(), expired)
      ensures AllTrack(expired) && fresh(objects.Values - old(objects.Values))
    {
      ghost var start := Value();
      assert expired[..0] == [];
      for i := 0 to |expired|
        invariant BatchAt(start, expired, scripts, i)
        invariant fresh(objects.Values - old(objects.Values))
      {
        RunNext(start, expired, scripts, i);
      }
      assert expired[..|expired|] == expired;
      calling := false;
    }

    /** One wake-up of the timerfd: the due batch runs, and the queue ends up as `Round` says. */
    method HandleRead(now: int, fired: bool, scripts: Scripts, validAt: int, armAt: int)
      returns (expired: seq<Entry>)
      requires Valid() && LegalRound(Value(), now, fired, scripts)
      modifies this, objects.Values
      ensures Valid() && Value() == Round(old(Value()), now, fired, scripts, validAt, armAt)
      ensures expired == Due(old(Value()), now)
    {
      OpenedAgrees(Value(), now, fired);
      expired := OpenBatch(now, fired);
      RunBatch(expired, scripts);
      Reset(expired, now, validAt, armAt);
    }
  }

  lemma BatchStep(start: Queue, due: seq<Entry>, scripts: Scripts, i: nat)
    requires Agree(start) && Apart(start, due) && i < |due|
    requires AllAdmissible(start, due, Flatten(due, scripts))
    ensures var here := ApplyAll(start, Flatten(due[..i], scripts));
            var script := Script(scripts, due[i].timer);
            && AllAdmissible(here, due, script)
            && ApplyAll(here, script) == ApplyAll(start, Flatten(due[..i + 1], scripts))
            && Apart(ApplyAll(here, script), due)
  {
    var done, script := Flatten(due[..i], scripts), Script(scripts, due[i].timer);
    assert due[..i + 1][..i] == due[..i];
    FlattenPrefix(due, scripts, i + 1);
    AdmissibleSplit(start, due, done, script, Flatten(due, scripts));
    ApplyAllConcat(start, done, script);
    ApplyAllAgrees(start, due, done + script);
  }

  /** Why the assertions of `insert` hold: both set insertions succeed, and the sizes stay equal. */
  lemma InsertFacts(q: Queue, e: Entry)
    requires Agree(q) && IsNew(q.timers, e.timer)
    ensures |q.timers| == |q.active|
    ensures e !in q.timers && Key(e.timer) !in q.active
    ensures var q' := TimerRounds.Insert(q, e);
            Agree(q') && |q'.timers| == |q'.active|
  {
    SizesAgree(q.timers);
    InsertAgrees(q, e);
    SizesAgree(TimerRounds.Insert(q, e).timers);
  }

  lemma KeysSnoc(entries: seq<Entry>, i: nat)
    requires i < |entries|
    ensures Keys(entries[..i + 1]) == Keys(entries[..i]) + {Key(entries[i].timer)}
  {
    assert entries[..i + 1] == entries[..i] + [entries[i]];
  }

  /** Why the assertions of `getExpired` hold: the bound is past `now`, and each erase finds its timer. */
  lemma ExpiredFacts(q: Queue, now: int)
    requires Agree(q)
    ensures var n, due := DueCount(q.timers, now), Due(q, now);
            && (n < |q.timers| ==> now < q.timers[n].expiry)
            && (forall e <- due :: e in q.timers) && (forall e <- q.timers[n..] :: e in q.timers)
            && Agree(Expire(q, now))
            && (forall i :: 0 <= i < n ==> Key(due[i].timer) in q.active && Key(due[i].timer) !in Keys(due[..i]))
  {
    DueIsExact(q.timers, now);
    ExpireAgrees(q, now);
    var n, due := DueCount(q.timers, now), Due(q, now);
    forall i | 0 <= i < n
      ensures Key(due[i].timer) in q.active && Key(due[i].timer) !in Keys(due[..i])
    {
      assert q.timers[i] in q.timers;
      assert forall j :: 0 <= j < i ==> due[..i][j] == q.timers[j] && Differ(q.timers[j].timer, q.timers[i].timer);
    }
  }

  lemma {:induction false} AdmissiblePrefix(q: Queue, due: seq<Entry>, ops: seq<Op>, n: nat)
    requires AllAdmissible(q, due, ops) && n <= |ops|
    ensures AllAdmissible(q, due, ops[..n])
  {
    if n < |ops| {
      assert ops[..|ops| - 1][..n] == ops[..n];
      AdmissiblePrefix(q, due, ops[..|ops| - 1], n);
    } else {
      assert ops[..n] == ops;
    }
  }

  lemma AdmissibleAt(q: Queue, due: seq<Entry>, ops: seq<Op>, i: nat)
    requires AllAdmissible(q, due, ops) && i < |ops|
    ensures AllAdmissible(q, due, ops[..i]) && Admissible(ApplyAll(q, ops[..i]), due, ops[i])
  {
    AdmissiblePrefix(q, due, ops, i);
    AdmissiblePrefix(q, due, ops, i + 1);
    assert ops[..i + 1][..i] == ops[..i];
  }

  lemma {:induction false} ApplyAllConcat(q: Queue, a: seq<Op>, b: seq<Op>)
    ensures ApplyAll(q, a + b) == ApplyAll(ApplyAll(q, a), b)
  {
    if b == [] {
      assert a + b == a;
    } else {
      assert (a + b)[..|a + b| - 1] == a + b[..|b| - 1];
      ApplyAllConcat(q, a, b[..|b| - 1]);
    }
  }

  lemma {:induction false} AdmissibleSuffix(q: Queue, due: seq<Entry>, a: seq<Op>, b: seq<Op>)
    requires AllAdmissible(q, due, a + b)
    ensures AllAdmissible(ApplyAll(q, a), due, b)
  {
    if b != [] {
      var init := b[..|b| - 1];
      assert (a + b)[..|a + b| - 1] == a + init;
      AdmissibleSuffix(q, due, a, init);
      ApplyAllConcat(q, a, init);
    }
  }

  lemma AdmissibleSplit(q: Queue, due: seq<Entry>, a: seq<Op>, b: seq<Op>, ops: seq<Op>)
    requires AllAdmissible(q, due, ops) && a + b <= ops
    ensures AllAdmissible(q, due, a + b) && AllAdmissible(ApplyAll(q, a), due, b)
  {
    AdmissiblePrefix(q, due, ops, |a + b|);
    assert ops[..|a + b|] == a + b;
    AdmissibleSuffix(q, due, a, b);
  }

  lemma {:induction false} FlattenPrefix(due: seq<Entry>, scripts: Scripts, n: nat)
    requires n <= |due|
    ensures Flatten(due[..n], scripts) <= Flatten(due, scripts)
  {
    if n < |due| {
      assert due[..|due| - 1][..n] == due[..n];
      FlattenPrefix(due[..|due| - 1], scripts, n);
    } else {
      assert due[..n] == due;
    }
  }
}

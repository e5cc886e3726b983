// What net/TimerQueue.cpp computes, on values: one expiry round with re-entrant callbacks,
// and whole runs of adds, cancels and rounds.
//
// A timer is identified by what never changes in it; its current expiry is in its entry.
module TimerRounds {
  import opened Octets

  /** `getExpired` uses UINTPTR_MAX as a bound that no timer's address reaches. */
  const UINTPTR_MAX: nat := 0xFFFF_FFFF_FFFF_FFFF

  type Address = a: nat | a < UINTPTR_MAX

  /** What never changes in a timer: the object's address, its creation number and its period. */
  datatype TimerId = TimerId(address: Address, sequence: int, interval: int) {
    predicate Repeats() {
      interval > 0
    }
  }

  /** An element of `timers_`, ordered by expiry and then by address. */
  datatype Entry = Entry(expiry: int, timer: TimerId)

  /** An element of `activeTimers_` and of `cancelingTimers_`. */
  datatype ActiveTimer = ActiveTimer(timer: TimerId, sequence: int)

  function Key(t: TimerId): ActiveTimer {
    ActiveTimer(t, t.sequence)
  }

  predicate Before(a: Entry, b: Entry) {
    a.expiry < b.expiry || (a.expiry == b.expiry && a.timer.address < b.timer.address)
  }

  // ---------- the timerfd ----------

  const MICROSECONDS_PER_SECOND: int := 1_000_000
  const FLOOR: int := 100

  /** Disarmed, or armed at clock time `at` to become readable at `target`. */
  datatype TimerFd = Disarmed | Armed(at: int, target: int)

  function Delay(when: int, clock: int): int {
    Max(FLOOR, when - clock)
  }

  /** The `timespec` for a delay: exact, normalised, and never the zero that would disarm the timerfd. */
  function HowMuchTimeFromNow(when: int, clock: int): (ts: (int, int))
    ensures ts.0 * 1_000_000_000 + ts.1 == 1000 * if when - clock < 100 then 100 else when - clock
    ensures 0 <= ts.0 && 0 <= ts.1 < 1_000_000_000
    ensures ts != (0, 0)
  {
    var microseconds := if when - clock < FLOOR then FLOOR else when - clock;
    (microseconds / MICROSECONDS_PER_SECOND, (microseconds % MICROSECONDS_PER_SECOND) * 1000)
  }

  function Arm(when: int, clock: int): TimerFd {
    Armed(clock, clock + Delay(when, clock))
  }

  // ---------- the queue ----------

  datatype Queue = Queue(
    timers: seq<Entry>,
    active: set<ActiveTimer>,
    calling: bool,
    canceling: set<ActiveTimer>,
    fd: TimerFd)

  const EMPTY: Queue := Queue([], {}, false, {}, Disarmed)

  function Inserted(timers: seq<Entry>, e: Entry): seq<Entry> {
    if timers == [] || Before(e, timers[0]) then [e] + timers
    else [timers[0]] + Inserted(timers[1..], e)
  }

  function Without(timers: seq<Entry>, t: TimerId): seq<Entry> {
    if timers == [] then []
    else if timers[0].timer == t then Without(timers[1..], t)
    else [timers[0]] + Without(timers[1..], t)
  }

  function Insert(q: Queue, e: Entry): Queue {
    q.(timers := Inserted(q.timers, e), active := q.active + {Key(e.timer)})
  }

  predicate IsEarliest(q: Queue, expiry: int) {
    q.timers == [] || expiry < q.timers[0].expiry
  }

  /** What a callback, or a functor between rounds, may do to the queue; `clock` is the time it reads. */
  datatype Op = Add(timer: TimerId, expiry: int, clock: int) | Cancel(timer: TimerId)

  function Apply(q: Queue, op: Op): Queue {
    match op
    case Add(t, expiry, clock) =>
      var q' := Insert(q, Entry(expiry, t));
      if IsEarliest(q, expiry) then q'.(fd := Arm(expiry, clock)) else q'
    case Cancel(t) =>
      if Key(t) in q.active then q.(timers := Without(q.timers, t), active := q.active - {Key(t)})
      else if q.calling then q.(canceling := q.canceling + {Key(t)})
      else q
  }

  function ApplyAll(q: Queue, ops: seq<Op>): Queue {
    if ops == [] then q
    else Apply(ApplyAll(q, ops[..|ops| - 1]), ops[|ops| - 1])
  }

  /** The entry lies before the sentry `(now, UINTPTR_MAX)`. */
  predicate BeforeSentry(e: Entry, now: int) {
    e.expiry < now || (e.expiry == now && e.timer.address < UINTPTR_MAX)
  }

  /** `lower_bound` of the sentry: the number of leading entries before it. */
  function DueCount(timers: seq<Entry>, now: int): (n: nat)
    ensures n <= |timers|
  {
    if timers == [] || !BeforeSentry(timers[0], now) then 0 else 1 + DueCount(timers[1..], now)
  }

  function Due(q: Queue, now: int): seq<Entry> {
    q.timers[..DueCount(q.timers, now)]
  }

  function Keys(entries: seq<Entry>): set<ActiveTimer> {
    set e | e in entries :: Key(e.timer)
  }

  function Expire(q: Queue, now: int): Queue {
    q.(timers := q.timers[DueCount(q.timers, now)..], active := q.active - Keys(Due(q, now)))
  }

  /** What each timer's callback does in this round; a timer without a script does nothing. */
  type Scripts = map<TimerId, seq<Op>>

  function Script(scripts: Scripts, t: TimerId): seq<Op> {
    if t in scripts then scripts[t] else []
  }

  /** The operations of the callbacks of `due`, in the order they run. */
  function Flatten(due: seq<Entry>, scripts: Scripts): seq<Op> {
    if due == [] then []
    else Flatten(due[..|due| - 1], scripts) + Script(scripts, due[|due| - 1].timer)
  }

  /** The callbacks of a batch run one after the other, in the order of the batch. */
  lemma {:induction false} CallbacksRunInOrder(a: seq<Entry>, b: seq<Entry>, scripts: Scripts)
    ensures Flatten(a + b, scripts) == Flatten(a, scripts) + Flatten(b, scripts)
    ensures forall e :: Flatten([e], scripts) == Script(scripts, e.timer)
  {
    forall e
      ensures Flatten([e], scripts) == Script(scripts, e.timer)
    {
      assert [e][..0] == [] && [] + Script(scripts, e.timer) == Script(scripts, e.timer);
    }
    if b == [] {
      assert a + b == a;
    } else {
      var init, last := b[..|b| - 1], b[|b| - 1];
      assert (a + b)[..|a + b| - 1] == a + init;
      CallbacksRunInOrder(a, init, scripts);
      Regroup(Flatten(a, scripts), Flatten(init, scripts), Script(scripts, last.timer));
    }
  }

  predicate Restarts(q: Queue, e: Entry) {
    e.timer.Repeats() && Key(e.timer) !in q.canceling
  }

  function Reinserted(q: Queue, due: seq<Entry>, now: int): Queue {
    if due == [] then q
    else
      var before, e := Reinserted(q, due[..|due| - 1], now), due[|due| - 1];
      if Restarts(before, e) then Insert(before, Entry(now + e.timer.interval, e.timer)) else before
  }

  function Rearmed(q: Queue, validAt: int, armAt: int): Queue {
    if q.timers != [] && q.timers[0].expiry >= validAt then q.(fd := Arm(q.timers[0].expiry, armAt))
    else q
  }

  /** The queue as the callbacks find it: expired entries taken out, `callingExpiredTimers_` set. */
  function Opened(q: Queue, now: int, fired: bool): Queue {
    Expire(q, now).(calling := true, canceling := {}, fd := if fired then Disarmed else q.fd)
  }

  /** `handleRead`: `fired` says whether reading the timerfd found an expiration. */
  function Round(q: Queue, now: int, fired: bool, scripts: Scripts, validAt: int, armAt: int): Queue {
    var called := ApplyAll(Opened(q, now, fired), Flatten(Due(q, now), scripts));
    Rearmed(Reinserted(called.(calling := false), Due(q, now), now), validAt, armAt)
  }

  // ---------- the two indexes agree ----------

  ghost predicate Sorted(timers: seq<Entry>) {
    forall i, j {:trigger Before(timers[i], timers[j])} :: 0 <= i < j < |timers| ==> Before(timers[i], timers[j])
  }

  predicate Differ(t: TimerId, u: TimerId) {
    t.address != u.address
  }

  /** Live timers have different addresses, so no timer is held twice. */
  ghost predicate Distinct(timers: seq<Entry>) {
    forall i, j {:trigger Differ(timers[i].timer, timers[j].timer)} :: 0 <= i < j < |timers| ==>
      Differ(timers[i].timer, timers[j].timer)
  }

  ghost predicate SameTimers(timers: seq<Entry>, active: set<ActiveTimer>) {
    Sorted(timers) && Distinct(timers) && active == Keys(timers)
  }

  ghost predicate Agree(q: Queue) {
    SameTimers(q.timers, q.active)
  }

  ghost predicate Holds(entries: seq<Entry>, t: TimerId) {
    exists e :: e in entries && e.timer == t
  }

  /** `t` differs from every timer of `entries`, in identity and in address. */
  ghost predicate IsNew(entries: seq<Entry>, t: TimerId) {
    forall e <- entries :: Differ(e.timer, t)
  }

  lemma ActiveIff(q: Queue, t: TimerId)
    requires Agree(q)
    ensures Key(t) in q.active <==> Holds(q.timers, t)
  {
  }

  lemma {:induction false} InsertedElements(timers: seq<Entry>, e: Entry)
    ensures |Inserted(timers, e)| == |timers| + 1
    ensures forall x :: x in Inserted(timers, e) <==> x in timers || x == e
  {
    if timers != [] && !Before(e, timers[0]) {
      InsertedElements(timers[1..], e);
      assert timers == [timers[0]] + timers[1..];
    }
  }

  lemma ConsOrder(e: Entry, rest: seq<Entry>)
    requires Sorted(rest) && Distinct(rest) && IsNew(rest, e.timer)
    requires forall x <- rest :: Before(e, x)
    ensures Sorted([e] + rest) && Distinct([e] + rest)
  {
    assert forall i :: 0 <= i < |rest| ==> rest[i] in rest;
  }

  lemma TailOrder(timers: seq<Entry>)
    requires timers != [] && Sorted(timers) && Distinct(timers)
    ensures Sorted(timers[1..]) && Distinct(timers[1..])
    ensures IsNew(timers[1..], timers[0].timer)
    ensures forall x <- timers[1..] :: Before(timers[0], x)
    ensures timers == [timers[0]] + timers[1..]
  {
    var tail := timers[1..];
    assert forall i :: 0 <= i < |tail| ==>
      tail[i] == timers[i + 1] && Before(timers[0], tail[i]) && Differ(timers[0].timer, tail[i].timer);
  }

  lemma {:induction false} InsertedOrder(timers: seq<Entry>, e: Entry)
    requires Sorted(timers) && Distinct(timers) && IsNew(timers, e.timer)
    ensures Sorted(Inserted(timers, e)) && Distinct(Inserted(timers, e))
  {
    if timers != [] {
      TailOrder(timers);
      assert timers[0] in timers;
    }
    if timers == [] || Before(e, timers[0]) {
      ConsOrder(e, timers);
    } else {
      InsertedOrder(timers[1..], e);
      InsertedElements(timers[1..], e);
      ConsOrder(timers[0], Inserted(timers[1..], e));
    }
  }

  lemma {:induction false} WithoutElements(timers: seq<Entry>, t: TimerId)
    ensures forall x :: x in Without(timers, t) <==> x in timers && x.timer != t
  {
    if timers != [] {
      WithoutElements(timers[1..], t);
      assert timers == [timers[0]] + timers[1..];
    }
  }

  lemma {:induction false} WithoutOrder(timers: seq<Entry>, t: TimerId)
    requires Sorted(timers) && Distinct(timers)
    ensures Sorted(Without(timers, t)) && Distinct(Without(timers, t))
  {
    if timers != [] {
      TailOrder(timers);
      WithoutOrder(timers[1..], t);
      WithoutElements(timers[1..], t);
      ConsOrder(timers[0], Without(timers[1..], t));
    }
  }

  lemma InsertAgrees(q: Queue, e: Entry)
    requires Agree(q) && IsNew(q.timers, e.timer)
    ensures Agree(Insert(q, e))
  {
    InsertedOrder(q.timers, e);
    InsertedElements(q.timers, e);
    assert Keys(Inserted(q.timers, e)) == Keys(q.timers) + {Key(e.timer)};
  }

  lemma CancelAgrees(q: Queue, t: TimerId)
    requires Agree(q)
    ensures Agree(Apply(q, Cancel(t)))
  {
    if Key(t) in q.active {
      WithoutOrder(q.timers, t);
      WithoutElements(q.timers, t);
      var timers := Without(q.timers, t);
      assert Keys(timers) == q.active - {Key(t)};
    }
  }

  /** As many entries in one index as in the other. */
  lemma {:induction false} SizesAgree(timers: seq<Entry>)
    requires Distinct(timers)
    ensures |Keys(timers)| == |timers|
  {
    if timers != [] {
      var init, last := timers[..|timers| - 1], timers[|timers| - 1];
      SizesAgree(init);
      assert timers == init + [last];
      assert Keys(timers) == Keys(init) + {Key(last.timer)};
      assert forall i :: 0 <= i < |init| ==> init[i] == timers[i] && Differ(init[i].timer, last.timer);
      assert Key(last.timer) !in Keys(init);
    }
  }

  // ---------- taking the due entries out ----------

  /** `getExpired(now)` splits off exactly the entries with expiry at most `now`. */
  lemma {:induction false} DueIsExact(timers: seq<Entry>, now: int)
    requires Sorted(timers)
    ensures var n := DueCount(timers, now);
            && (forall i :: 0 <= i < n ==> timers[i].expiry <= now)
            && (forall i :: n <= i < |timers| ==> timers[i].expiry > now)
  {
    if timers != [] {
      var tail := timers[1..];
      assert forall i :: 0 <= i < |tail| ==> tail[i] == timers[i + 1] && Before(timers[0], tail[i]);
      DueIsExact(tail, now);
      var n := DueCount(timers, now);
      assert forall i :: 1 <= i < |timers| ==> timers[i] == tail[i - 1];
    }
  }

  lemma {:induction false} SplitOrder(timers: seq<Entry>, n: nat)
    requires Sorted(timers) && Distinct(timers) && n <= |timers|
    ensures Sorted(timers[..n]) && Distinct(timers[..n]) && Sorted(timers[n..]) && Distinct(timers[n..])
    ensures forall e <- timers[..n] :: IsNew(timers[n..], e.timer)
    ensures timers == timers[..n] + timers[n..]
  {
    var due, left := timers[..n], timers[n..];
    assert forall i :: 0 <= i < |left| ==> left[i] == timers[n + i];
    assert forall i, j :: 0 <= i < n && 0 <= j < |left| ==> Differ(due[i].timer, left[j].timer);
  }

  lemma SplitKeys(timers: seq<Entry>, n: nat)
    requires Sorted(timers) && Distinct(timers) && n <= |timers|
    ensures Keys(timers[n..]) == Keys(timers) - Keys(timers[..n])
  {
    assert timers == timers[..n] + timers[n..];
    assert forall i :: 0 <= i < |timers[n..]| ==> timers[n..][i] == timers[n + i];
    assert Keys(timers) == Keys(timers[..n]) + Keys(timers[n..]);
    SplitOrder(timers, n);
    assert Keys(timers[..n]) !! Keys(timers[n..]);
  }

  lemma ExpireAgrees(q: Queue, now: int)
    requires Agree(q)
    ensures Agree(Expire(q, now)) && Sorted(Due(q, now)) && Distinct(Due(q, now))
    ensures forall e <- Due(q, now) :: IsNew(Expire(q, now).timers, e.timer)
  {
    SplitOrder(q.timers, DueCount(q.timers, now));
    SplitKeys(q.timers, DueCount(q.timers, now));
  }

  lemma SplitElements(timers: seq<Entry>, now: int)
    requires Sorted(timers)
    ensures var n := DueCount(timers, now);
            && (forall e :: e in timers[..n] <==> e in timers && e.expiry <= now)
            && (forall e :: e in timers[n..] <==> e in timers && e.expiry > now)
  {
    DueIsExact(timers, now);
    SplitBy(timers, DueCount(timers, now), now);
  }

  lemma SplitBy(timers: seq<Entry>, n: nat, now: int)
    requires n <= |timers|
    requires forall i :: 0 <= i < |timers| ==> (timers[i].expiry <= now <==> i < n)
    ensures forall e :: e in timers[..n] <==> e in timers && e.expiry <= now
    ensures forall e :: e in timers[n..] <==> e in timers && e.expiry > now
  {
    forall e | e in timers
      ensures if e.expiry <= now then e in timers[..n] else e in timers[n..]
    {
      var i :| 0 <= i < |timers| && timers[i] == e;
      assert i < n ==> timers[..n][i] == e;
      assert i >= n ==> timers[n..][i - n] == e;
    }
  }

  lemma DueElements(q: Queue, now: int)
    requires Agree(q)
    ensures forall e :: e in Due(q, now) <==> e in q.timers && e.expiry <= now
    ensures forall e :: e in Expire(q, now).timers <==> e in q.timers && e.expiry > now
  {
    SplitElements(q.timers, now);
  }

  // ---------- callbacks ----------

  /** A new timer differs from every timer alive: those queued and those of the batch being run. */
  ghost predicate Admissible(q: Queue, due: seq<Entry>, op: Op) {
    op.Add? ==> IsNew(q.timers, op.timer) && IsNew(due, op.timer)
  }

  ghost predicate AllAdmissible(q: Queue, due: seq<Entry>, ops: seq<Op>) {
    ops == [] ||
    (var init := ops[..|ops| - 1];
     AllAdmissible(q, due, init) && Admissible(ApplyAll(q, init), due, ops[|ops| - 1]))
  }

  /** The batch and the queue have no timer and no address in common. */
  ghost predicate Apart(q: Queue, due: seq<Entry>) {
    forall e <- due :: IsNew(q.timers, e.timer)
  }

  lemma ApplyAgrees(q: Queue, due: seq<Entry>, op: Op)
    requires Agree(q) && Apart(q, due) && Admissible(q, due, op)
    ensures Agree(Apply(q, op)) && Apart(Apply(q, op), due)
  {
    match op
    case Add(t, expiry, clock) =>
      InsertAgrees(q, Entry(expiry, t));
      InsertedElements(q.timers, Entry(expiry, t));
    case Cancel(t) =>
      CancelAgrees(q, t);
      WithoutElements(q.timers, t);
  }

  lemma {:induction false} ApplyAllAgrees(q: Queue, due: seq<Entry>, ops: seq<Op>)
    requires Agree(q) && Apart(q, due) && AllAdmissible(q, due, ops)
    ensures Agree(ApplyAll(q, ops)) && Apart(ApplyAll(q, ops), due)
    ensures ApplyAll(q, ops).calling == q.calling
  {
    if ops != [] {
      var init := ops[..|ops| - 1];
      ApplyAllAgrees(q, due, init);
      ApplyAgrees(ApplyAll(q, init), due, ops[|ops| - 1]);
    }
  }

  /** Some operation at position `from` or later cancels `t`. */
  ghost predicate CancelledFrom(ops: seq<Op>, t: TimerId, from: nat) {
    exists j :: from <= j < |ops| && ops[j] == Cancel(t)
  }

  ghost predicate AddedAt(ops: seq<Op>, e: Entry, i: nat) {
    i < |ops| && ops[i].Add? && ops[i].timer == e.timer && ops[i].expiry == e.expiry
  }

  ghost predicate KeptAt(ops: seq<Op>, e: Entry, i: nat) {
    AddedAt(ops, e, i) && !CancelledFrom(ops, e.timer, i + 1)
  }

  ghost predicate AddedAndKept(ops: seq<Op>, e: Entry) {
    exists i: nat :: KeptAt(ops, e, i)
  }

  lemma CancelledSnoc(init: seq<Op>, op: Op, t: TimerId, from: nat)
    requires from <= |init|
    ensures CancelledFrom(init + [op], t, from) <==> CancelledFrom(init, t, from) || op == Cancel(t)
  {
    var ops := init + [op];
    assert ops[|init|] == op;
    assert forall j :: 0 <= j < |init| ==> ops[j] == init[j];
  }

  lemma AddedSnoc(init: seq<Op>, op: Op, e: Entry)
    ensures AddedAndKept(init + [op], e)
       <==> (AddedAndKept(init, e) && op != Cancel(e.timer))
            || (op.Add? && op.timer == e.timer && op.expiry == e.expiry)
  {
    var ops := init + [op];
    assert ops[|init|] == op;
    assert forall i :: 0 <= i < |init| ==> ops[i] == init[i];
    forall i: nat
      ensures i < |init| ==> (KeptAt(ops, e, i) <==> KeptAt(init, e, i) && op != Cancel(e.timer))
    {
      if i < |init| {
        CancelledSnoc(init, op, e.timer, i + 1);
      }
    }
    assert KeptAt(ops, e, |init|) <==> op.Add? && op.timer == e.timer && op.expiry == e.expiry;
    assert forall i: nat :: KeptAt(ops, e, i) ==> i <= |init|;
    assert forall i: nat :: KeptAt(init, e, i) ==> i < |init|;
  }

  lemma ApplyElements(q: Queue, op: Op, e: Entry)
    requires Agree(q)
    ensures e in Apply(q, op).timers
       <==> (e in q.timers && op != Cancel(e.timer))
            || (op.Add? && op.timer == e.timer && op.expiry == e.expiry)
  {
    match op
    case Add(t, expiry, clock) =>
      InsertedElements(q.timers, Entry(expiry, t));
    case Cancel(t) =>
      WithoutElements(q.timers, t);
      ActiveIff(q, t);
  }

  /** After any callbacks the queue holds what it held or was given, less what was cancelled since. */
  lemma {:induction false} ApplyAllElements(q: Queue, due: seq<Entry>, ops: seq<Op>, e: Entry)
    requires Agree(q) && Apart(q, due) && AllAdmissible(q, due, ops)
    ensures e in ApplyAll(q, ops).timers
       <==> (e in q.timers && !CancelledFrom(ops, e.timer, 0)) || AddedAndKept(ops, e)
  {
    if ops != [] {
      var init, op := ops[..|ops| - 1], ops[|ops| - 1];
      assert ops == init + [op];
      ApplyAllElements(q, due, init, e);
      ApplyAllAgrees(q, due, init);
      ApplyElements(ApplyAll(q, init), op, e);
      CancelledSnoc(init, op, e.timer, 0);
      AddedSnoc(init, op, e);
    }
  }

  /** A timer of the running batch lands in `cancelingTimers_` exactly when some callback cancels it. */
  lemma {:induction false} ApplyAllCanceling(q: Queue, due: seq<Entry>, ops: seq<Op>, e: Entry)
    requires Agree(q) && Apart(q, due) && AllAdmissible(q, due, ops)
    requires q.calling && e in due
    ensures Key(e.timer) in ApplyAll(q, ops).canceling
       <==> Key(e.timer) in q.canceling || CancelledFrom(ops, e.timer, 0)
  {
    if ops != [] {
      var init, op := ops[..|ops| - 1], ops[|ops| - 1];
      assert ops == init + [op];
      ApplyAllCanceling(q, due, init, e);
      ApplyAllAgrees(q, due, init);
      CancelledSnoc(init, op, e.timer, 0);
    }
  }

  // ---------- putting periodic timers back ----------

  /** `e` is one that `reset` puts back for a timer of `due`. */
  ghost predicate PutBack(q: Queue, due: seq<Entry>, now: int, e: Entry) {
    exists d ::
      && d in due && d.timer.interval > 0 && Key(d.timer) !in q.canceling
      && e == Entry(now + d.timer.interval, d.timer)
  }

  lemma PutBackSnoc(q: Queue, due: seq<Entry>, d: Entry, now: int, e: Entry)
    ensures PutBack(q, due + [d], now, e)
       <==> PutBack(q, due, now, e) || (Restarts(q, d) && e == Entry(now + d.timer.interval, d.timer))
  {
    assert d in due + [d];
    assert forall x :: x in due ==> x in due + [d];
  }

  /** `q'` holds what `q` held and what is put back for `due`. */
  ghost predicate HoldsBack(q: Queue, q': Queue, due: seq<Entry>, now: int) {
    forall e :: e in q'.timers <==> e in q.timers || PutBack(q, due, now, e)
  }

  /** The timer of `d`, which is neither queued nor among `due`, is new to the queue. */
  lemma StaysNew(q: Queue, before: Queue, due: seq<Entry>, d: Entry, now: int)
    requires HoldsBack(q, before, due, now) && IsNew(q.timers, d.timer)
    requires forall x <- due :: Differ(x.timer, d.timer)
    ensures IsNew(before.timers, d.timer)
  {
  }

  lemma HoldsBackSnoc(q: Queue, before: Queue, due: seq<Entry>, d: Entry, now: int)
    requires HoldsBack(q, before, due, now) && before.canceling == q.canceling
    ensures var back := Entry(now + d.timer.interval, d.timer);
            HoldsBack(q, if Restarts(before, d) then Insert(before, back) else before, due + [d], now)
  {
    var back := Entry(now + d.timer.interval, d.timer);
    InsertedElements(before.timers, back);
    forall e
      ensures PutBack(q, due + [d], now, e) <==> PutBack(q, due, now, e) || (Restarts(q, d) && e == back)
    {
      PutBackSnoc(q, due, d, now, e);
    }
  }

  lemma LastDiffers(q: Queue, due: seq<Entry>, d: Entry)
    requires Apart(q, due + [d]) && Distinct(due + [d])
    ensures Apart(q, due) && Distinct(due) && IsNew(q.timers, d.timer)
    ensures forall x <- due :: Differ(x.timer, d.timer)
  {
    var all := due + [d];
    assert d == all[|due|] && d in all;
    assert forall i :: 0 <= i < |due| ==> due[i] == all[i];
  }

  /** `q'` is what `reset` makes of `q` for the timers of `due`. */
  ghost predicate IsReset(q: Queue, q': Queue, due: seq<Entry>, now: int) {
    && Agree(q') && HoldsBack(q, q', due, now)
    && q'.canceling == q.canceling && q'.calling == q.calling && q'.fd == q.fd
  }

  lemma ResetSnoc(q: Queue, before: Queue, due: seq<Entry>, d: Entry, now: int)
    requires Apart(q, due + [d]) && Distinct(due + [d]) && IsReset(q, before, due, now)
    ensures var back := Entry(now + d.timer.interval, d.timer);
            IsReset(q, if Restarts(before, d) then Insert(before, back) else before, due + [d], now)
  {
    LastDiffers(q, due, d);
    HoldsBackSnoc(q, before, due, d, now);
    StaysNew(q, before, due, d, now);
    InsertAgrees(before, Entry(now + d.timer.interval, d.timer));
  }

  lemma {:induction false} ReinsertedElements(q: Queue, due: seq<Entry>, now: int)
    requires Agree(q) && Apart(q, due) && Distinct(due)
    ensures IsReset(q, Reinserted(q, due, now), due, now)
  {
    if due != [] {
      var init, d := due[..|due| - 1], due[|due| - 1];
      assert due == init + [d];
      LastDiffers(q, init, d);
      ReinsertedElements(q, init, now);
      ResetSnoc(q, Reinserted(q, init, now), init, d, now);
    }
  }

  // ---------- the round ----------

  ghost predicate LegalRound(q: Queue, now: int, fired: bool, scripts: Scripts) {
    AllAdmissible(Opened(q, now, fired), Due(q, now), Flatten(Due(q, now), scripts))
  }

  /** Whether `e` is in the queue after the round, said from the queue before it and the callbacks. */
  ghost predicate Remains(q: Queue, now: int, ops: seq<Op>, e: Entry) {
    e in q.timers && e.expiry > now && !CancelledFrom(ops, e.timer, 0)
  }

  ghost predicate Periodic(q: Queue, now: int, ops: seq<Op>, e: Entry) {
    && e.timer.interval > 0 && e.expiry == now + e.timer.interval
    && !CancelledFrom(ops, e.timer, 0)
    && exists due :: due in q.timers && due.timer == e.timer && due.expiry <= now
  }

  lemma OpenedAgrees(q: Queue, now: int, fired: bool)
    requires Agree(q)
    ensures Agree(Opened(q, now, fired)) && Apart(Opened(q, now, fired), Due(q, now))
    ensures Sorted(Due(q, now)) && Distinct(Due(q, now))
  {
    ExpireAgrees(q, now);
  }

  /** One round is exact, for any callbacks: kept, added and periodic timers, each at its expiry, and no others. */
  lemma RoundIsExact(q: Queue, now: int, fired: bool, scripts: Scripts, validAt: int, armAt: int)
    requires Agree(q) && LegalRound(q, now, fired, scripts)
    ensures var q', ops := Round(q, now, fired, scripts, validAt, armAt), Flatten(Due(q, now), scripts);
            && Agree(q') && !q'.calling
            && forall e :: e in q'.timers <==>
                 (Remains(q, now, ops, e) || AddedAndKept(ops, e) || Periodic(q, now, ops, e))
  {
    var start, due, ops := Opened(q, now, fired), Due(q, now), Flatten(Due(q, now), scripts);
    OpenedAgrees(q, now, fired);
    DueElements(q, now);
    ApplyAllAgrees(start, due, ops);
    var called := ApplyAll(start, ops).(calling := false);
    ReinsertedElements(called, due, now);
    var q' := Round(q, now, fired, scripts, validAt, armAt);
    forall e
      ensures e in q'.timers <==> Remains(q, now, ops, e) || AddedAndKept(ops, e) || Periodic(q, now, ops, e)
    {
      ApplyAllElements(start, due, ops, e);
      forall d | d in due
        ensures Restarts(called, d) <==> d.timer.interval > 0 && !CancelledFrom(ops, d.timer, 0)
      {
        ApplyAllCanceling(start, due, ops, d);
      }
    }
  }
}

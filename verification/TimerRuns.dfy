// Whole runs of the timer queue: adds, cancels and expiry rounds in any order, with their log.
module TimerRuns {
  import opened Octets
  import opened TimerRounds

  datatype Event =
    | Do(op: Op)
    | Expiry(now: int, fired: bool, scripts: Scripts, validAt: int, armAt: int)

  /** One callback that ran: which timer, its expiry, and the `now` of its round. */
  datatype Ran = Ran(timer: TimerId, expiry: int, now: int)

  /** The queue, every timer ever added, and the callbacks that ran. */
  datatype History = History(queue: Queue, known: set<TimerId>, log: seq<Ran>)

  const START: History := History(EMPTY, {}, [])

  function Ops(h: History, ev: Event): seq<Op> {
    match ev
    case Do(op) => [op]
    case Expiry(now, _, scripts, _, _) => Flatten(Due(h.queue, now), scripts)
  }

  function Added(ops: seq<Op>): set<TimerId> {
    set op | op in ops && op.Add? :: op.timer
  }

  function Callbacks(due: seq<Entry>, now: int): (s: seq<Ran>)
    ensures |s| == |due|
    ensures forall i :: 0 <= i < |s| ==> s[i] == Ran(due[i].timer, due[i].expiry, now)
  {
    if due == [] then []
    else Callbacks(due[..|due| - 1], now) + [Ran(due[|due| - 1].timer, due[|due| - 1].expiry, now)]
  }

  function Next(h: History, ev: Event): History {
    match ev
    case Do(op) =>
      h.(queue := Apply(h.queue, op), known := h.known + Added([op]))
    case Expiry(now, fired, scripts, validAt, armAt) =>
      History(Round(h.queue, now, fired, scripts, validAt, armAt),
              h.known + Added(Ops(h, ev)),
              h.log + Callbacks(Due(h.queue, now), now))
  }

  /** Every added timer is an object created for that add. */
  ghost predicate Created(known: set<TimerId>, ops: seq<Op>) {
    && (forall i :: 0 <= i < |ops| && ops[i].Add? ==> ops[i].timer !in known)
    && (forall i, j :: 0 <= i < j < |ops| && ops[i].Add? && ops[j].Add? ==> ops[i].timer != ops[j].timer)
  }

  /** `handleRead` runs only for an armed timerfd. */
  ghost predicate Legal(h: History, ev: Event) {
    Created(h.known, Ops(h, ev)) &&
    match ev
    case Do(op) => Admissible(h.queue, [], op)
    case Expiry(now, fired, scripts, _, _) => h.queue.fd.Armed? && LegalRound(h.queue, now, fired, scripts)
  }

  ghost predicate LegalRun(evs: seq<Event>) {
    evs == [] ||
    (LegalRun(evs[..|evs| - 1]) && Legal(Run(evs[..|evs| - 1]), evs[|evs| - 1]))
  }

  function Run(evs: seq<Event>): History {
    if evs == [] then START else Next(Run(evs[..|evs| - 1]), evs[|evs| - 1])
  }

  // ---------- what every event keeps ----------

  /** Each logged run was due, and a timer's next expiry or next run is at least one period later. */
  ghost predicate Spaced(h: History) {
    && (forall i :: 0 <= i < |h.log| ==> h.log[i].timer in h.known && h.log[i].expiry <= h.log[i].now)
    && (forall i, e :: 0 <= i < |h.log| && e in h.queue.timers && e.timer == h.log[i].timer ==>
          e.timer.interval > 0 && h.log[i].now + e.timer.interval <= e.expiry)
    && (forall i, j :: 0 <= i < j < |h.log| && h.log[i].timer == h.log[j].timer ==>
          h.log[i].timer.interval > 0 && h.log[i].now + h.log[i].timer.interval <= h.log[j].now)
  }

  ghost predicate Consistent(h: History) {
    && Agree(h.queue) && !h.queue.calling
    && (forall e <- h.queue.timers :: e.timer in h.known)
    && Spaced(h)
  }

  lemma DoKeeps(h: History, op: Op)
    requires Consistent(h) && Legal(h, Do(op))
    ensures Consistent(Next(h, Do(op)))
  {
    ApplyAgrees(h.queue, [], op);
    assert Ops(h, Do(op))[0] == op;
    forall e
      ensures e in Apply(h.queue, op).timers ==>
        (e in h.queue.timers || (op.Add? && op.timer == e.timer))
    {
      ApplyElements(h.queue, op, e);
    }
  }

  /** What a round leaves in the queue, seen from the log's side. */
  lemma RoundEntries(h: History, ev: Event, e: Entry)
    requires Consistent(h) && Legal(h, ev) && ev.Expiry? && e in Next(h, ev).queue.timers
    ensures || (e in h.queue.timers && e.expiry > ev.now)
            || (e.timer !in h.known && e.timer in Next(h, ev).known)
            || (e.timer.interval > 0 && e.expiry == ev.now + e.timer.interval
                && exists d :: d in h.queue.timers && d.timer == e.timer && d.expiry <= ev.now)
  {
    RoundIsExact(h.queue, ev.now, ev.fired, ev.scripts, ev.validAt, ev.armAt);
    var ops := Ops(h, ev);
    if AddedAndKept(ops, e) {
      var i: nat :| KeptAt(ops, e, i);
      assert ops[i] in ops;
    }
  }

  lemma SameTimerSameEntry(q: Queue, a: Entry, b: Entry)
    requires Agree(q) && a in q.timers && b in q.timers && a.timer == b.timer
    ensures a == b
  {
    var i :| 0 <= i < |q.timers| && q.timers[i] == a;
    var j :| 0 <= j < |q.timers| && q.timers[j] == b;
    assert i < j ==> Differ(q.timers[i].timer, q.timers[j].timer);
    assert j < i ==> Differ(q.timers[j].timer, q.timers[i].timer);
  }

  lemma BatchIsOrdered(q: Queue, now: int)
    requires Agree(q)
    ensures var due := Due(q, now);
            && (forall e :: e in due <==> e in q.timers && e.expiry <= now)
            && (forall i :: 0 <= i < |due| ==> due[i] in q.timers && due[i].expiry <= now)
            && (forall i, j :: 0 <= i < j < |due| ==>
                  || due[i].expiry < due[j].expiry
                  || (due[i].expiry == due[j].expiry && due[i].timer.address < due[j].timer.address))
  {
    DueElements(q, now);
    ExpireAgrees(q, now);
    var due := Due(q, now);
    assert forall i :: 0 <= i < |due| ==> due[i] in due;
    assert forall i, j :: 0 <= i < j < |due| ==> Before(due[i], due[j]);
  }

  /** The runs a round logs: one for each due timer, in (expiry, address) order. */
  lemma RoundLog(h: History, ev: Event)
    requires Consistent(h) && ev.Expiry?
    ensures var h', n := Next(h, ev), |h.log|;
            && |h'.log| == n + |Due(h.queue, ev.now)|
            && h'.log[..n] == h.log
            && (forall k :: n <= k < |h'.log| ==>
                  var e := Due(h.queue, ev.now)[k - n];
                  && h'.log[k] == Ran(e.timer, e.expiry, ev.now)
                  && e in h.queue.timers && e.expiry <= ev.now)
            && (forall i, j :: n <= i < j < |h'.log| ==>
                  || h'.log[i].expiry < h'.log[j].expiry
                  || (h'.log[i].expiry == h'.log[j].expiry && h'.log[i].timer.address < h'.log[j].timer.address))
            && (forall e :: e in Due(h.queue, ev.now) <==> e in h.queue.timers && e.expiry <= ev.now)
  {
    BatchIsOrdered(h.queue, ev.now);
  }

  lemma DueDiffer(q: Queue, now: int)
    requires Agree(q)
    ensures Distinct(Due(q, now))
  {
    ExpireAgrees(q, now);
  }

  /** One entry of the new log: an old one, or one of the due timers. */
  lemma LogEntry(h: History, ev: Event, k: nat)
    requires Consistent(h) && ev.Expiry? && k < |Next(h, ev).log|
    ensures var r, n, due := Next(h, ev).log[k], |h.log|, Due(h.queue, ev.now);
            if k < n then r == h.log[k]
            else k - n < |due| && r == Ran(due[k - n].timer, due[k - n].expiry, ev.now)
                 && due[k - n] in h.queue.timers && due[k - n].expiry <= ev.now
  {
    RoundLog(h, ev);
    assert k < |h.log| ==> Next(h, ev).log[k] == Next(h, ev).log[..|h.log|][k];
  }

  lemma LogKeepsSpacing(h: History, ev: Event, i: nat, j: nat)
    requires Consistent(h) && ev.Expiry?
    requires i < j < |Next(h, ev).log| && Next(h, ev).log[i].timer == Next(h, ev).log[j].timer
    ensures var log := Next(h, ev).log;
            log[i].timer.interval > 0 && log[i].now + log[i].timer.interval <= log[j].now
  {
    LogEntry(h, ev, i);
    LogEntry(h, ev, j);
    DueDiffer(h.queue, ev.now);
    var due, n := Due(h.queue, ev.now), |h.log|;
    assert n <= i ==> Differ(due[i - n].timer, due[j - n].timer);
  }

  lemma LogPrecedesEntry(h: History, ev: Event, e: Entry, i: nat)
    requires Consistent(h) && Legal(h, ev) && ev.Expiry?
    requires e in Next(h, ev).queue.timers
    requires i < |Next(h, ev).log| && Next(h, ev).log[i].timer == e.timer
    ensures e.timer.interval > 0 && Next(h, ev).log[i].now + e.timer.interval <= e.expiry
  {
    LogEntry(h, ev, i);
    RoundEntries(h, ev, e);
    var n := |h.log|;
    if n <= i && e in h.queue.timers {
      SameTimerSameEntry(h.queue, Due(h.queue, ev.now)[i - n], e);
    }
  }

  lemma ExpiryKeeps(h: History, ev: Event)
    requires Consistent(h) && Legal(h, ev) && ev.Expiry?
    ensures Consistent(Next(h, ev))
  {
    RoundIsExact(h.queue, ev.now, ev.fired, ev.scripts, ev.validAt, ev.armAt);
    var h' := Next(h, ev);
    forall e | e in h'.queue.timers
      ensures e.timer in h'.known
    {
      RoundEntries(h, ev, e);
    }
    forall i, e | 0 <= i < |h'.log| && e in h'.queue.timers && e.timer == h'.log[i].timer
      ensures e.timer.interval > 0 && h'.log[i].now + e.timer.interval <= e.expiry
    {
      LogPrecedesEntry(h, ev, e, i);
    }
    forall i, j | 0 <= i < j < |h'.log| && h'.log[i].timer == h'.log[j].timer
      ensures h'.log[i].timer.interval > 0 && h'.log[i].now + h'.log[i].timer.interval <= h'.log[j].now
    {
      LogKeepsSpacing(h, ev, i, j);
    }
    forall i | 0 <= i < |h'.log|
      ensures h'.log[i].timer in h'.known && h'.log[i].expiry <= h'.log[i].now
    {
      LogEntry(h, ev, i);
    }
  }

  lemma {:induction false} RunKeeps(evs: seq<Event>)
    requires LegalRun(evs)
    ensures Consistent(Run(evs))
  {
    if evs != [] {
      var init, ev := evs[..|evs| - 1], evs[|evs| - 1];
      RunKeeps(init);
      match ev
      case Do(op) => DoKeeps(Run(init), op);
      case Expiry(_, _, _, _, _) => ExpiryKeeps(Run(init), ev);
    }
  }

  /** Over every run: no callback runs before its expiry; a one-shot timer runs at most once; a periodic
      timer's runs are at least one interval apart; and the two indexes agree at every point. */
  lemma RunsAreDueAndSpaced(evs: seq<Event>)
    requires LegalRun(evs)
    ensures var h := Run(evs);
            && Agree(h.queue) && |h.queue.timers| == |h.queue.active|
            && (forall i :: 0 <= i < |h.log| ==> h.log[i].expiry <= h.log[i].now)
            && (forall i, j :: 0 <= i < j < |h.log| && h.log[i].timer == h.log[j].timer ==>
                  && h.log[i].timer.interval > 0
                  && h.log[i].now + h.log[i].timer.interval <= h.log[j].now)
  {
    RunKeeps(evs);
    SizesAgree(Run(evs).queue.timers);
  }

  // ---------- cancellation is final ----------

  /** Once added, now in neither index. */
  ghost predicate Gone(h: History, t: TimerId) {
    t in h.known && !Holds(h.queue.timers, t)
  }

  lemma GoneStays(h: History, ev: Event, t: TimerId)
    requires Consistent(h) && Legal(h, ev) && Gone(h, t)
    ensures Gone(Next(h, ev), t)
    ensures forall k :: |h.log| <= k < |Next(h, ev).log| ==> Next(h, ev).log[k].timer != t
  {
    var h' := Next(h, ev);
    match ev
    case Do(op) =>
      assert Ops(h, ev)[0] == op;
      forall e ensures e in h'.queue.timers ==> e.timer != t {
        ApplyElements(h.queue, op, e);
      }
    case Expiry(now, _, _, _, _) =>
      DueElements(h.queue, now);
      assert forall i :: 0 <= i < |Due(h.queue, now)| ==> Due(h.queue, now)[i] in Due(h.queue, now);
      forall e | e in h'.queue.timers
        ensures e.timer != t
      {
        RoundEntries(h, ev, e);
      }
  }

  /** The event cancels `t`, which was in the queue before it or was added earlier in it. */
  ghost predicate Cancels(h: History, ev: Event, t: TimerId) {
    var ops := Ops(h, ev);
    || (t in h.known && CancelledFrom(ops, t, 0))
    || (exists i: nat :: i < |ops| && ops[i].Add? && ops[i].timer == t && CancelledFrom(ops, t, i + 1))
  }

  lemma CancelledIsGone(h: History, ev: Event, t: TimerId)
    requires Consistent(h) && Legal(h, ev) && Cancels(h, ev, t)
    ensures Gone(Next(h, ev), t)
  {
    var h', ops := Next(h, ev), Ops(h, ev);
    assert forall i :: 0 <= i < |ops| ==> ops[i] in ops;
    match ev
    case Do(op) =>
      assert forall j :: 0 <= j < |ops| ==> ops[j] == op;
      forall e ensures e in h'.queue.timers ==> e.timer != t {
        ApplyElements(h.queue, op, e);
      }
    case Expiry(_, _, _, _, _) =>
      RoundIsExact(h.queue, ev.now, ev.fired, ev.scripts, ev.validAt, ev.armAt);
  }

  ghost predicate Prefix(h: History, h': History) {
    |h.log| <= |h'.log| && h'.log[..|h.log|] == h.log
  }

  lemma {:induction false} GoneStaysOverRuns(evs: seq<Event>, k: nat, t: TimerId)
    requires LegalRun(evs) && k <= |evs| && Gone(Run(evs[..k]), t)
    ensures Gone(Run(evs), t) && Prefix(Run(evs[..k]), Run(evs))
    ensures forall i :: |Run(evs[..k]).log| <= i < |Run(evs).log| ==> Run(evs).log[i].timer != t
    decreases |evs|
  {
    if k < |evs| {
      var init := evs[..|evs| - 1];
      assert init[..k] == evs[..k];
      GoneStaysOverRuns(init, k, t);
      RunKeeps(init);
      GoneStays(Run(init), evs[|evs| - 1], t);
    } else {
      assert evs[..k] == evs;
    }
  }

  lemma {:induction false} LegalPrefix(evs: seq<Event>, k: nat)
    requires LegalRun(evs) && k <= |evs|
    ensures LegalRun(evs[..k])
  {
    if k < |evs| {
      assert evs[..|evs| - 1][..k] == evs[..k];
      LegalPrefix(evs[..|evs| - 1], k);
    } else {
      assert evs[..k] == evs;
    }
  }

  /** A timer cancelled in event `k` of a run never runs in a later event. */
  lemma CancellationIsFinal(evs: seq<Event>, k: nat, t: TimerId)
    requires LegalRun(evs) && k < |evs|
    requires Cancels(Run(evs[..k]), evs[k], t)
    ensures Prefix(Run(evs[..k + 1]), Run(evs))
    ensures forall i :: |Run(evs[..k + 1]).log| <= i < |Run(evs).log| ==> Run(evs).log[i].timer != t
  {
    LegalPrefix(evs, k);
    LegalPrefix(evs, k + 1);
    RunKeeps(evs[..k]);
    assert evs[..k + 1][..k] == evs[..k] && evs[..k + 1][k] == evs[k];
    CancelledIsGone(Run(evs[..k]), evs[k], t);
    GoneStaysOverRuns(evs, k + 1, t);
  }

  // ---------- what a round leaves of a due timer ----------

  /** Of the timers that were due, exactly the periodic ones that no callback cancelled are queued again. */
  lemma DueTimerReturnsIff(q: Queue, now: int, fired: bool, scripts: Scripts, validAt: int, armAt: int, e: Entry)
    requires Agree(q) && LegalRound(q, now, fired, scripts) && e in q.timers && e.expiry <= now
    ensures var q', ops := Round(q, now, fired, scripts, validAt, armAt), Flatten(Due(q, now), scripts);
            && (Holds(q'.timers, e.timer) <==> e.timer.interval > 0 && !CancelledFrom(ops, e.timer, 0))
            && (forall x <- q'.timers :: x.timer == e.timer ==> x.expiry == now + e.timer.interval)
  {
    var start, due, ops := Opened(q, now, fired), Due(q, now), Flatten(Due(q, now), scripts);
    var q' := Round(q, now, fired, scripts, validAt, armAt);
    RoundIsExact(q, now, fired, scripts, validAt, armAt);
    OpenedAgrees(q, now, fired);
    DueElements(q, now);
    ApplyAllAgrees(start, due, ops);
    var back := Entry(now + e.timer.interval, e.timer);
    assert e.timer.interval > 0 && !CancelledFrom(ops, e.timer, 0) ==> Periodic(q, now, ops, back) && back in q'.timers;
    forall x | x in q'.timers && x.timer == e.timer
      ensures Periodic(q, now, ops, x)
    {
      ApplyAllElements(start, due, ops, x);
      if Remains(q, now, ops, x) {
        SameTimerSameEntry(q, x, e);
      }
    }
  }

  // ---------- arming the timerfd ----------

  /** Armed for `expiry` or earlier, or for the 100-microsecond floor if that is later. */
  predicate InTime(fd: TimerFd, expiry: int) {
    fd.Armed? && fd.target <= Max(expiry, fd.at + FLOOR)
  }

  ghost predicate Covered(q: Queue) {
    q.timers == [] || InTime(q.fd, q.timers[0].expiry)
  }

  /** An add arms the timerfd exactly if it comes before every timer held: for its expiry, or 100 microseconds on. */
  lemma AddArmsIff(q: Queue, t: TimerId, expiry: int, clock: int)
    requires Agree(q)
    ensures var q' := Apply(q, Add(t, expiry, clock));
            q'.fd == if forall e <- q.timers :: expiry < e.expiry
                     then Armed(clock, if expiry - clock < 100 then clock + 100 else expiry)
                     else q.fd
  {
    assert forall k :: 0 < k < |q.timers| ==> Before(q.timers[0], q.timers[k]);
    assert q.timers != [] ==> q.timers[0] in q.timers;
  }

  /** `reset` arms it for the earliest expiry, or 100 microseconds on, if that expiry is not past. */
  lemma ResetArmsIff(q: Queue, validAt: int, armAt: int, earliest: Entry)
    requires Agree(q) && earliest in q.timers && forall e <- q.timers :: earliest.expiry <= e.expiry
    ensures Rearmed(q, validAt, armAt).fd ==
              if earliest.expiry >= validAt
              then Armed(armAt, if earliest.expiry - armAt < 100 then armAt + 100 else earliest.expiry)
              else q.fd
  {
    assert forall k :: 0 < k < |q.timers| ==> Before(q.timers[0], q.timers[k]);
    assert q.timers[0] in q.timers;
  }

  lemma InsertedHead(timers: seq<Entry>, e: Entry)
    ensures Inserted(timers, e)[0] == if timers == [] || Before(e, timers[0]) then e else timers[0]
  {
  }

  lemma ApplyKeepsCovered(q: Queue, op: Op)
    requires Agree(q) && Covered(q)
    ensures Covered(Apply(q, op))
  {
    match op
    case Add(t, expiry, clock) =>
      InsertedHead(q.timers, Entry(expiry, t));
    case Cancel(t) =>
      var timers := Without(q.timers, t);
      WithoutElements(q.timers, t);
      if timers != [] {
        var k :| 0 <= k < |q.timers| && q.timers[k] == timers[0];
        assert k > 0 ==> Before(q.timers[0], q.timers[k]);
      }
  }

  /** The queue as `reset` finds it once the periodic timers are back. */
  function BeforeArming(q: Queue, now: int, fired: bool, scripts: Scripts): Queue {
    Reinserted(ApplyAll(Opened(q, now, fired), Flatten(Due(q, now), scripts)).(calling := false), Due(q, now), now)
  }

  /** `isVaild` holds of the earliest timer when `reset` asks. */
  predicate Prompt(h: History, ev: Event) {
    ev.Expiry? ==>
      var q := BeforeArming(h.queue, ev.now, ev.fired, ev.scripts);
      q.timers == [] || q.timers[0].expiry >= ev.validAt
  }

  ghost predicate PromptRun(evs: seq<Event>) {
    evs == [] ||
    (PromptRun(evs[..|evs| - 1]) && Prompt(Run(evs[..|evs| - 1]), evs[|evs| - 1]))
  }

  /** If no `reset` comes too late, the earliest timer is covered after every event of every run. */
  lemma {:induction false} EarliestIsCovered(evs: seq<Event>)
    requires LegalRun(evs) && PromptRun(evs)
    ensures Covered(Run(evs).queue)
  {
    if evs != [] {
      var init, ev := evs[..|evs| - 1], evs[|evs| - 1];
      EarliestIsCovered(init);
      RunKeeps(init);
      if ev.Do? {
        ApplyKeepsCovered(Run(init).queue, ev.op);
      }
    }
  }

  /** Some callback's add became the earliest timer of the queue as it was then, which arms the timerfd. */
  ghost predicate ArmsAt(q: Queue, ops: seq<Op>, i: nat) {
    i < |ops| && ops[i].Add? && IsEarliest(ApplyAll(q, ops[..i]), ops[i].expiry)
  }

  ghost predicate SomeAddArms(q: Queue, ops: seq<Op>) {
    exists i: nat :: ArmsAt(q, ops, i)
  }

  lemma {:induction false} ArmedByCallbacksIff(q: Queue, ops: seq<Op>)
    requires q.fd.Disarmed?
    ensures ApplyAll(q, ops).fd.Armed? <==> SomeAddArms(q, ops)
  {
    if ops != [] {
      var n := |ops| - 1;
      var init := ops[..n];
      ArmedByCallbacksIff(q, init);
      assert forall i: nat :: i <= n ==> init[..i] == ops[..i];
      assert forall i: nat :: ArmsAt(q, init, i) ==> ArmsAt(q, ops, i);
      assert forall i: nat :: ArmsAt(q, ops, i) ==> i == n || ArmsAt(q, init, i);
      assert ArmsAt(q, ops, n) <==> ops[n].Add? && IsEarliest(ApplyAll(q, init), ops[n].expiry);
    } else {
      assert !exists i: nat :: ArmsAt(q, ops, i);
    }
  }

  lemma {:induction false} ReinsertedKeepsFd(q: Queue, due: seq<Entry>, now: int)
    ensures Reinserted(q, due, now).fd == q.fd
  {
    if due != [] {
      ReinsertedKeepsFd(q, due[..|due| - 1], now);
    }
  }

  /** A round that consumed its expiration leaves the timerfd disarmed exactly when the earliest timer is
      missing or already past at `reset`, and no callback added a timer that was earliest in its turn. */
  lemma RoundLeavesDisarmedIff(q: Queue, now: int, scripts: Scripts, validAt: int, armAt: int)
    ensures var left := BeforeArming(q, now, true, scripts);
            Round(q, now, true, scripts, validAt, armAt).fd.Disarmed? <==>
              && (left.timers == [] || left.timers[0].expiry < validAt)
              && !SomeAddArms(Opened(q, now, true), Flatten(Due(q, now), scripts))
  {
    var start, ops := Opened(q, now, true), Flatten(Due(q, now), scripts);
    ArmedByCallbacksIff(start, ops);
    ReinsertedKeepsFd(ApplyAll(start, ops).(calling := false), Due(q, now), now);
    var left := BeforeArming(q, now, true, scripts);
    assert left.fd == ApplyAll(start, ops).fd;
    assert Round(q, now, true, scripts, validAt, armAt) == Rearmed(left, validAt, armAt);
  }

  /** The last of the adds that armed the timerfd. */
  ghost predicate LastArmsAt(q: Queue, ops: seq<Op>, i: nat) {
    ArmsAt(q, ops, i) && forall j: nat :: i < j ==> !ArmsAt(q, ops, j)
  }

  lemma ArmsAtSnoc(q: Queue, ops: seq<Op>)
    requires ops != []
    ensures var n := |ops| - 1;
            && (forall i: nat :: ArmsAt(q, ops, i) <==> ArmsAt(q, ops[..n], i) || (i == n && ArmsAt(q, ops, n)))
            && (forall i: nat :: ArmsAt(q, ops[..n], i) ==> i < n)
            && ApplyAll(q, ops).fd == if ArmsAt(q, ops, n) then Arm(ops[n].expiry, ops[n].clock)
                                      else ApplyAll(q, ops[..n]).fd
  {
    var n := |ops| - 1;
    assert forall i: nat :: i <= n ==> ops[..n][..i] == ops[..i];
  }

  lemma {:induction false} ArmedByLast(q: Queue, ops: seq<Op>)
    ensures !SomeAddArms(q, ops) ==> ApplyAll(q, ops).fd == q.fd
    ensures SomeAddArms(q, ops) ==> exists i: nat :: LastArmsAt(q, ops, i)
    ensures forall i: nat :: LastArmsAt(q, ops, i) ==> ApplyAll(q, ops).fd == Arm(ops[i].expiry, ops[i].clock)
  {
    if ops != [] {
      var n := |ops| - 1;
      ArmedByLast(q, ops[..n]);
      ArmsAtSnoc(q, ops);
      if ArmsAt(q, ops, n) {
        assert LastArmsAt(q, ops, n);
      } else {
        assert forall i: nat :: LastArmsAt(q, ops, i) <==> LastArmsAt(q, ops[..n], i);
      }
    }
  }

  /** The last add that armed the timerfd did so for `expiry` or earlier. */
  ghost predicate ArmsInTime(q: Queue, ops: seq<Op>, expiry: int) {
    exists i: nat :: LastArmsAt(q, ops, i) && ops[i].expiry <= Max(expiry, ops[i].clock + FLOOR)
  }

  /** What leaves the earliest timer covered: none is left, it is not past at `reset`, a callback's add armed the
      timerfd early enough, or no callback touched a timerfd that was still armed early enough. */
  ghost predicate Rearms(q: Queue, now: int, fired: bool, scripts: Scripts, validAt: int) {
    var left := BeforeArming(q, now, fired, scripts);
    var start, ops := Opened(q, now, fired), Flatten(Due(q, now), scripts);
    || left.timers == []
    || left.timers[0].expiry >= validAt
    || ArmsInTime(start, ops, left.timers[0].expiry)
    || (!fired && !SomeAddArms(start, ops) && InTime(q.fd, left.timers[0].expiry))
  }

  /** Exactly then: a round leaves the earliest timer covered if and only if one of these holds. */
  lemma RoundCoversIff(q: Queue, now: int, fired: bool, scripts: Scripts, validAt: int, armAt: int)
    ensures Covered(Round(q, now, fired, scripts, validAt, armAt)) <==> Rearms(q, now, fired, scripts, validAt)
  {
    var start, ops := Opened(q, now, fired), Flatten(Due(q, now), scripts);
    var left := BeforeArming(q, now, fired, scripts);
    ReinsertedKeepsFd(ApplyAll(start, ops).(calling := false), Due(q, now), now);
    assert left.fd == ApplyAll(start, ops).fd;
    assert Round(q, now, fired, scripts, validAt, armAt) == Rearmed(left, validAt, armAt);
    ArmedByLast(start, ops);
    if left.timers != [] && SomeAddArms(start, ops) {
      LastInTime(start, ops, left.timers[0].expiry);
    }
  }

  lemma LastInTime(q: Queue, ops: seq<Op>, expiry: int)
    requires SomeAddArms(q, ops)
    ensures InTime(ApplyAll(q, ops).fd, expiry) <==> ArmsInTime(q, ops, expiry)
  {
    ArmedByLast(q, ops);
    var i: nat :| LastArmsAt(q, ops, i);
    assert forall j: nat :: LastArmsAt(q, ops, j) ==> j == i;
  }

  ghost predicate AlwaysCovered(evs: seq<Event>) {
    Covered(Run(evs).queue) && (evs != [] ==> AlwaysCovered(evs[..|evs| - 1]))
  }

  ghost predicate AlwaysRearms(evs: seq<Event>) {
    evs == [] ||
    (var init, ev := evs[..|evs| - 1], evs[|evs| - 1];
     && AlwaysRearms(init)
     && (ev.Expiry? ==> Rearms(Run(init).queue, ev.now, ev.fired, ev.scripts, ev.validAt)))
  }

  /** Over whole runs: the earliest timer is covered after every event if and only if every round rearms. */
  lemma {:induction false} AlwaysCoveredIff(evs: seq<Event>)
    requires LegalRun(evs)
    ensures AlwaysCovered(evs) <==> AlwaysRearms(evs)
  {
    if evs != [] {
      var init, ev := evs[..|evs| - 1], evs[|evs| - 1];
      AlwaysCoveredIff(init);
      RunKeeps(init);
      match ev
      case Do(op) =>
        if AlwaysCovered(init) {
          CoveredNow(init);
          ApplyKeepsCovered(Run(init).queue, op);
        }
      case Expiry(now, fired, scripts, validAt, armAt) =>
        RoundCoversIff(Run(init).queue, now, fired, scripts, validAt, armAt);
    }
  }

  lemma CoveredNow(evs: seq<Event>)
    requires AlwaysCovered(evs)
    ensures Covered(Run(evs).queue)
  {
  }

  /** The late case is real: whenever the one timer's next expiry is past when `reset` asks, the timer stays
      queued with the timerfd disarmed, and no later round is possible without a new add. */
  lemma LateResetStalls(t: TimerId, expiry: int, clock: int, now: int, validAt: int)
    requires t.interval > 0 && expiry <= now && now + t.interval < validAt
    ensures var evs := [Do(Add(t, expiry, clock))] + [Expiry(now, true, map[], validAt, validAt)];
            && LegalRun(evs)
            && Run(evs).queue.timers == [Entry(now + t.interval, t)] && Run(evs).queue.fd.Disarmed?
            && forall n, fired, scripts, v, a :: !Legal(Run(evs), Expiry(n, fired, scripts, v, a))
  {
    var e1, e2 := Do(Add(t, expiry, clock)), Expiry(now, true, map[], validAt, validAt);
    FirstAdd(t, expiry, clock);
    assert LegalRun([]) && Run([]) == START;
    RunSnoc([], e1);
    assert [] + [e1] == [e1];
    OneTimerOps(t, expiry, Arm(expiry, clock), now);
    RunSnoc([e1], e2);
    OneTimerRound(t, expiry, Arm(expiry, clock), now, validAt);
  }

  lemma FirstAdd(t: TimerId, expiry: int, clock: int)
    ensures Legal(START, Do(Add(t, expiry, clock)))
    ensures Next(START, Do(Add(t, expiry, clock))).queue == OneTimer(t, expiry, Arm(expiry, clock))
  {
    assert Ops(START, Do(Add(t, expiry, clock))) == [Add(t, expiry, clock)];
  }

  lemma RunSnoc(evs: seq<Event>, ev: Event)
    requires LegalRun(evs) && Legal(Run(evs), ev)
    ensures LegalRun(evs + [ev]) && Run(evs + [ev]) == Next(Run(evs), ev)
  {
    assert (evs + [ev])[..|evs|] == evs;
  }

  function OneTimer(t: TimerId, expiry: int, fd: TimerFd): Queue {
    Queue([Entry(expiry, t)], {Key(t)}, false, {}, fd)
  }

  lemma OneTimerOps(t: TimerId, expiry: int, fd: TimerFd, now: int)
    requires expiry <= now
    ensures var q := OneTimer(t, expiry, fd);
            && Due(q, now) == [Entry(expiry, t)]
            && Flatten(Due(q, now), map[]) == []
            && Opened(q, now, true) == Queue([], {}, true, {}, Disarmed)
  {
    var q := OneTimer(t, expiry, fd);
    assert DueCount(q.timers, now) == 1;
    assert Due(q, now)[..0] == [];
    assert Keys(Due(q, now)) == {Key(t)};
  }

  lemma OneTimerRound(t: TimerId, expiry: int, fd: TimerFd, now: int, validAt: int)
    requires expiry <= now && t.interval > 0 && now + t.interval < validAt
    ensures Round(OneTimer(t, expiry, fd), now, true, map[], validAt, validAt)
         == OneTimer(t, now + t.interval, Disarmed)
  {
    OneTimerOps(t, expiry, fd, now);
    var due, start := [Entry(expiry, t)], Queue([], {}, false, {}, Disarmed);
    assert due[..0] == [] && Reinserted(start, [], now) == start;
    assert Reinserted(start, due, now) == OneTimer(t, now + t.interval, Disarmed);
  }

  // ---------- a timer that waits for another one ----------

  /** The other late case: a callback's add arms the timerfd for itself, and the periodic timer of the round, already
      past at `reset`, then waits for that add's expiry. */
  lemma LateResetMisarms(t: TimerId, expiry: int, clock: int, now: int, validAt: int, a: TimerId, later: int, at: int)
    requires t.interval > 0 && expiry <= now && now + t.interval < validAt
    requires Differ(t, a) && later > Max(now + t.interval, at + FLOOR)
    ensures var scripts := map[t := [Add(a, later, at)]];
            var evs := [Do(Add(t, expiry, clock))] + [Expiry(now, true, scripts, validAt, validAt)];
            && LegalRun(evs)
            && Run(evs).queue.timers == [Entry(now + t.interval, t), Entry(later, a)]
            && Run(evs).queue.fd == Armed(at, later)
            && !Covered(Run(evs).queue)
  {
    var scripts := map[t := [Add(a, later, at)]];
    var e1, e2 := Do(Add(t, expiry, clock)), Expiry(now, true, scripts, validAt, validAt);
    FirstAdd(t, expiry, clock);
    assert LegalRun([]) && Run([]) == START;
    RunSnoc([], e1);
    assert [] + [e1] == [e1];
    OneTimerScript(t, expiry, Arm(expiry, clock), now, a, later, at);
    RunSnoc([e1], e2);
    OneTimerMisarmed(t, expiry, Arm(expiry, clock), now, validAt, a, later, at);
  }

  lemma OneTimerScript(t: TimerId, expiry: int, fd: TimerFd, now: int, a: TimerId, later: int, at: int)
    requires expiry <= now && Differ(t, a)
    ensures var q, scripts := OneTimer(t, expiry, fd), map[t := [Add(a, later, at)]];
            var ops := [Add(a, later, at)];
            && Due(q, now) == [Entry(expiry, t)]
            && Flatten(Due(q, now), scripts) == ops
            && Opened(q, now, true) == Queue([], {}, true, {}, Disarmed)
            && AllAdmissible(Opened(q, now, true), Due(q, now), ops)
            && ApplyAll(Opened(q, now, true), ops) == Queue([Entry(later, a)], {Key(a)}, true, {}, Arm(later, at))
  {
    OneTimerOps(t, expiry, fd, now);
    var q, scripts := OneTimer(t, expiry, fd), map[t := [Add(a, later, at)]];
    var ops, start := [Add(a, later, at)], Queue([], {}, true, {}, Disarmed);
    assert Due(q, now)[..0] == [] && ops[..0] == [];
    assert ApplyAll(start, []) == start && AllAdmissible(start, Due(q, now), []);
    assert Admissible(start, Due(q, now), ops[0]);
    assert Flatten([], scripts) + [Add(a, later, at)] == [Add(a, later, at)];
  }

  lemma OneTimerMisarmed(
    t: TimerId, expiry: int, fd: TimerFd, now: int, validAt: int, a: TimerId, later: int, at: int)
    requires expiry <= now && t.interval > 0 && now + t.interval < validAt
    requires Differ(t, a) && later > Max(now + t.interval, at + FLOOR)
    ensures var q := Round(OneTimer(t, expiry, fd), now, true, map[t := [Add(a, later, at)]], validAt, validAt);
            && q.timers == [Entry(now + t.interval, t), Entry(later, a)]
            && q.fd == Armed(at, later)
  {
    OneTimerScript(t, expiry, fd, now, a, later, at);
    var due, called := [Entry(expiry, t)], Queue([Entry(later, a)], {Key(a)}, false, {}, Arm(later, at));
    assert due[..0] == [] && Reinserted(called, [], now) == called;
    assert Inserted(called.timers, Entry(now + t.interval, t)) == [Entry(now + t.interval, t), Entry(later, a)];
  }
}

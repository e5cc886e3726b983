// The life of the connections of net/TcpServer.cpp on values: created on the base loop, used on an I/O loop,
// removed from the map on the base loop again and destroyed on the I/O loop. Loop 0 is the base loop, and may
// be an I/O loop too. A functor run by a loop, an event and a call of the user are one step each.
module ConnectionLifecycle {
  import opened Octets
  import opened ConnectionOutput

  type LoopId = nat
  type ConnId = nat

  const BASE: LoopId := 0

  /** The calls that mark a connection's life. */
  datatype Mark = Established | Closed | Erased | Destroyed

  const WHOLE_LIFE: seq<Mark> := [Established, Closed, Erased, Destroyed]

  /** `reading` and `writing` are the channel's mask, `polled` says that epoll watches it, and `waiting` that
      `outputBuffer_` is not empty. */
  datatype Conn = Conn(
    loop: LoopId, state: State, reading: bool, writing: bool, waiting: bool, polled: bool, marks: seq<Mark>)

  /** A functor queued on a loop. `ToSend` is `sendInLoop`, from a `send` on another thread. */
  datatype Item = ToEstablish(c: ConnId) | ToRemove(c: ConnId) | ToDestroy(c: ConnId) | ToSend(c: ConnId)

  /** `conns` holds every connection ever made, in order of creation; `registry` is `connectionMap_`. */
  datatype Server = Server(
    name: string, nextId: nat, registry: map<string, ConnId>, conns: seq<Conn>, queues: seq<seq<Item>>)

  /** `epoll` bits of one dispatch, and whether a `read` in it would report the end of the stream. */
  datatype Events = Events(hup: bool, readable: bool, urgent: bool, peerClosed: bool, atEnd: bool)

  /** `whole` says whether a write made in the step takes everything. */
  datatype Step =
    | NewConnection(l: LoopId)
    | RunNext(l: LoopId, whole: bool)
    | Dispatch(c: ConnId, ev: Events)
    | Flush(c: ConnId, whole: bool)
    | UserSend(c: ConnId, whole: bool)
    | SendElsewhere(c: ConnId)
    | UserShutdown(c: ConnId)
    | ShutdownElsewhere(c: ConnId)

  function NameOf(server: string, c: ConnId): string {
    server + "#" + Decimal(c + 1)
  }

  function Init(name: string, loops: nat): Server {
    Server(name, 1, map[], [], seq(loops, _ => []))
  }

  const NEW: Conn := Conn(BASE, Connecting, false, false, false, false, [])

  // ---------- the pieces of the code ----------

  function Post(s: Server, l: LoopId, item: Item): Server
    requires l < |s.queues|
  {
    s.(queues := s.queues[l := s.queues[l] + [item]])
  }

  function EstablishNow(s: Server, c: ConnId): Server
    requires c < |s.conns|
  {
    var conn := s.conns[c];
    s.(conns := s.conns[c := conn.(state := Connected, reading := true, polled := true,
                                   marks := conn.marks + [Established])])
  }

  /** `removeConnectionInLoop`. */
  function RemoveNow(s: Server, c: ConnId): Server
    requires c < |s.conns| && s.conns[c].loop < |s.queues|
  {
    var conn := s.conns[c];
    Post(s.(registry := s.registry - {NameOf(s.name, c)},
            conns := s.conns[c := conn.(marks := conn.marks + [Erased])]),
         conn.loop, ToDestroy(c))
  }

  function Disabled(conn: Conn): Conn {
    conn.(state := Disconnected, reading := false, writing := false, polled := false)
  }

  /** `handleClose`, with `removeConnection` as its close callback. */
  function CloseNow(s: Server, c: ConnId): Server
    requires c < |s.conns| && s.conns[c].loop < |s.queues| && BASE < |s.queues|
  {
    var conn := s.conns[c];
    var closed := s.(conns := s.conns[c := Disabled(conn).(marks := conn.marks + [Closed])]);
    if conn.loop == BASE then RemoveNow(closed, c) else Post(closed, BASE, ToRemove(c))
  }

  /** `connectionDestroyed`; at its end the channel leaves epoll. */
  function DestroyNow(s: Server, c: ConnId): Server
    requires c < |s.conns|
  {
    var conn := s.conns[c];
    var gone := if conn.state == Connected then Disabled(conn) else conn;
    s.(conns := s.conns[c := gone.(polled := false, marks := conn.marks + [Destroyed])])
  }

  /** `sendInLoop`: an incomplete write leaves a backlog and enables writing, whatever the state. */
  function SendNow(s: Server, c: ConnId, whole: bool): Server
    requires c < |s.conns|
  {
    var conn := s.conns[c];
    if conn.writing || conn.waiting || whole then s
    else s.(conns := s.conns[c := conn.(waiting := true, writing := true, polled := true)])
  }

  /** `handleWrite`: once the backlog is out, writing is disabled. */
  function FlushNow(s: Server, c: ConnId, whole: bool): Server
    requires c < |s.conns|
  {
    var conn := s.conns[c];
    if !conn.writing || !whole then s
    else s.(conns := s.conns[c := conn.(waiting := false, writing := false, polled := conn.reading)])
  }

  function Accepted(s: Server, l: LoopId): Server
    requires l < |s.queues|
  {
    var c := |s.conns|;
    var s' := s.(nextId := s.nextId + 1,
                 registry := s.registry[s.name + "#" + Decimal(s.nextId) := c],
                 conns := s.conns + [NEW.(loop := l)]);
    if l == BASE then EstablishNow(s', c) else Post(s', l, ToEstablish(c))
  }

  function Execute(s: Server, item: Item, whole: bool): Server
    requires item.c < |s.conns| && s.conns[item.c].loop < |s.queues|
  {
    match item
    case ToEstablish(c) => EstablishNow(s, c)
    case ToRemove(c) => RemoveNow(s, c)
    case ToDestroy(c) => DestroyNow(s, c)
    case ToSend(c) => SendNow(s, c, whole)
  }

  // ---------- one dispatch ----------

  /** How often `Channel::handleEventWithGuard` calls `handleClose`, directly or through `handleRead`. */
  function Closings(ev: Events): nat {
    (if ev.hup && !ev.readable then 1 else 0) +
    (if (ev.readable || ev.urgent || ev.peerClosed) && ev.atEnd then 1 else 0)
  }

  /** No hang-up without data, and no read that finds the end of the stream. */
  predicate Quiet(ev: Events) {
    !(ev.hup && !ev.readable) && !(ev.atEnd && (ev.readable || ev.urgent || ev.peerClosed))
  }

  /** A hang-up is not followed by a read that finds the end in the same dispatch. */
  predicate Tame(ev: Events) {
    !(ev.hup && !ev.readable && (ev.urgent || ev.peerClosed) && ev.atEnd)
  }

  /** The assertion of `handleClose` holds, and so will that of the erase, since no close came before. */
  predicate Closable(s: Server, c: ConnId)
    requires c < |s.conns|
  {
    s.conns[c].state in {Connected, Disconnecting} && Closed !in s.conns[c].marks
  }

  // ---------- steps ----------

  /** Events come only from a channel that epoll watches. A `send` of another thread may queue its functor, and a
      `shutdown` of another thread may store the state, at any time after it has found the connection established. */
  predicate Legal(s: Server, st: Step) {
    BASE < |s.queues| &&
    match st
    case NewConnection(l) => l < |s.queues|
    case RunNext(l, _) => l < |s.queues| && s.queues[l] != []
    case Dispatch(c, _) => c < |s.conns| && s.conns[c].polled
    case Flush(c, _) => c < |s.conns| && s.conns[c].polled && s.conns[c].writing
    case UserSend(c, _) => c < |s.conns|
    case SendElsewhere(c) => c < |s.conns| && s.conns[c].marks != [] && s.conns[c].loop < |s.queues|
    case UserShutdown(c) => c < |s.conns|
    case ShutdownElsewhere(c) => c < |s.conns| && s.conns[c].marks != []
  }

  predicate Registered(s: Server, c: ConnId) {
    NameOf(s.name, c) in s.registry && s.registry[NameOf(s.name, c)] == c
  }

  predicate FunctorIsSound(s: Server, l: LoopId, item: Item)
    requires item.c < |s.conns|
  {
    match item
    case ToEstablish(c) => s.conns[c].state == Connecting && s.conns[c].marks == []
    case ToRemove(c) => l == BASE && Registered(s, c)
    case ToDestroy(c) => s.conns[c].marks == [Established, Closed, Erased]
    case ToSend(c) => l == s.conns[c].loop
  }

  /** What the code asserts in a step: that each `handleClose` finds the connection open, that a name is new, that
      each functor finds the state it is made for, and that an erase finds its connection. */
  ghost predicate Sound(s: Server, st: Step)
    requires Legal(s, st)
  {
    match st
    case NewConnection(_) => s.name + "#" + Decimal(s.nextId) !in s.registry
    case Dispatch(c, ev) =>
      && s.conns[c].loop < |s.queues|
      && (Closings(ev) >= 1 ==> Closable(s, c) && Registered(s, c))
      && (Closings(ev) >= 2 ==> Closable(CloseNow(s, c), c))
    case RunNext(l, _) =>
      var item := s.queues[l][0];
      && item.c < |s.conns| && s.conns[item.c].loop < |s.queues|
      && FunctorIsSound(s, l, item)
    case _ => true
  }

  ghost function Next(s: Server, st: Step): Server
    requires Legal(s, st) && Sound(s, st)
  {
    match st
    case NewConnection(l) => Accepted(s, l)
    case RunNext(l, whole) => Execute(s.(queues := s.queues[l := s.queues[l][1..]]), s.queues[l][0], whole)
    case Dispatch(c, ev) => if Closings(ev) >= 1 then CloseNow(s, c) else s
    case Flush(c, whole) => FlushNow(s, c, whole)
    case UserSend(c, whole) => if s.conns[c].state == Connected then SendNow(s, c, whole) else s
    case SendElsewhere(c) => Post(s, s.conns[c].loop, ToSend(c))
    case UserShutdown(c) =>
      if s.conns[c].state == Connected
      then s.(conns := s.conns[c := s.conns[c].(state := Disconnecting)]) else s
    case ShutdownElsewhere(c) => s.(conns := s.conns[c := s.conns[c].(state := Disconnecting)])
  }

  // ---------- the invariant ----------

  /** The stage a connection has reached agrees with its state and its channel. A closed one does not read, but a
      late send may have enabled writing again, and a late store may have changed the state. */
  ghost predicate Staged(conn: Conn) {
    && conn.marks == WHOLE_LIFE[..Min(|conn.marks|, 4)]
    && (conn.writing ==> conn.waiting)
    && if |conn.marks| == 0 then conn == NEW.(loop := conn.loop) && conn.loop != BASE
       else if |conn.marks| == 1 then
         && conn.state in {Connected, Disconnecting} && conn.reading && conn.polled
         && (conn.waiting ==> conn.writing)
       else
         && conn.state in {Disconnecting, Disconnected} && !conn.reading && (conn.polled ==> conn.writing)
         && (|conn.marks| == 2 ==> conn.loop != BASE)
  }

  /** The functor a connection's next stage waits for, and where. */
  predicate Due(conns: seq<Conn>, l: LoopId, item: Item) {
    item.c < |conns| &&
    match item
    case ToEstablish(c) => l == conns[c].loop && |conns[c].marks| == 0
    case ToRemove(c) => l == BASE && |conns[c].marks| == 2
    case ToDestroy(c) => l == conns[c].loop && |conns[c].marks| == 3
    case ToSend(_) => false
  }

  /** A queued send is on its connection's loop, and behind the establishing. */
  predicate Placed(conns: seq<Conn>, l: LoopId, item: Item) {
    item.c < |conns| && conns[item.c].loop == l && |conns[item.c].marks| > 0
  }

  function Count(q: seq<Item>, item: Item): nat {
    multiset(q)[item]
  }

  /** Each functor that is due is queued exactly once, and no other is, sends aside. */
  ghost predicate QueuesMatch(conns: seq<Conn>, queues: seq<seq<Item>>) {
    forall l, item: Item :: 0 <= l < |queues| && !item.ToSend? ==>
      Count(queues[l], item) == if Due(conns, l, item) then 1 else 0
  }

  ghost predicate SendsPlaced(conns: seq<Conn>, queues: seq<seq<Item>>) {
    forall l, i :: 0 <= l < |queues| && 0 <= i < |queues[l]| && queues[l][i].ToSend? ==>
      Placed(conns, l, queues[l][i])
  }

  /** The map holds exactly the connections not yet erased, each under its own name. */
  ghost predicate RegistryMatches(name: string, conns: seq<Conn>, registry: map<string, ConnId>) {
    && (forall c :: 0 <= c < |conns| ==>
          if |conns[c].marks| <= 2 then NameOf(name, c) in registry && registry[NameOf(name, c)] == c
          else NameOf(name, c) !in registry)
    && (forall n <- registry :: registry[n] < |conns| && n == NameOf(name, registry[n]))
  }

  ghost predicate ConnsStaged(conns: seq<Conn>, loops: nat) {
    forall c :: 0 <= c < |conns| ==> conns[c].loop < loops && Staged(conns[c])
  }

  ghost predicate Inv(s: Server) {
    && BASE < |s.queues| && s.nextId == |s.conns| + 1
    && ConnsStaged(s.conns, |s.queues|)
    && RegistryMatches(s.name, s.conns, s.registry)
    && QueuesMatch(s.conns, s.queues) && SendsPlaced(s.conns, s.queues)
  }

  lemma PopCount(q: seq<Item>, item: Item)
    requires q != []
    ensures Count(q[1..], item) == Count(q, item) - (if item == q[0] then 1 else 0)
  {
    assert q == [q[0]] + q[1..];
  }

  lemma PostCount(q: seq<Item>, added: Item, item: Item)
    ensures Count(q + [added], item) == Count(q, item) + (if item == added then 1 else 0)
  {
  }

  /** No two connections ever share a name. */
  lemma NamesDiffer(name: string, c: ConnId, d: ConnId)
    requires c != d
    ensures NameOf(name, c) != NameOf(name, d)
  {
    DecimalRoundTrip(c + 1);
    DecimalRoundTrip(d + 1);
    assert NameOf(name, c)[|name| + 1..] == Decimal(c + 1);
    assert NameOf(name, d)[|name| + 1..] == Decimal(d + 1);
  }

  // ---------- which steps are sound ----------

  /** A closed connection whose channel a late send has brought back. */
  predicate Revived(conn: Conn) {
    Closed in conn.marks && conn.polled
  }

  lemma HeadIsPlaced(s: Server, l: LoopId)
    requires Inv(s) && l < |s.queues| && s.queues[l] != []
    ensures var item := s.queues[l][0];
            if item.ToSend? then Placed(s.conns, l, item) else Due(s.conns, l, item)
  {
    assert s.queues[l][0] in multiset(s.queues[l]);
    assert Count(s.queues[l], s.queues[l][0]) > 0;
  }

  /** Every step meets what the code asserts, except exactly a dispatch that closes twice, or closes a connection
      that is closed already and was brought back. */
  lemma StepIsSoundIff(s: Server, st: Step)
    requires Inv(s) && Legal(s, st)
    ensures Sound(s, st) <==>
              (st.Dispatch? ==> Tame(st.ev) && (!Quiet(st.ev) ==> !Revived(s.conns[st.c])))
  {
    match st
    case NewConnection(_) =>
      forall n | n in s.registry
        ensures n != NameOf(s.name, |s.conns|)
      {
        NamesDiffer(s.name, s.registry[n], |s.conns|);
      }
    case RunNext(l, _) => HeadIsPlaced(s, l);
    case Dispatch(c, _) => MarksOfStage(s.conns[c]);
    case _ =>
  }

  // ---------- what a dispatch, a shutdown and a write event come to ----------

  /** An open connection stays open, and nothing changes anywhere, exactly when there is no hang-up without data and
      no end of the stream to read; otherwise it is closed, unwatched, and on its way out of the map. */
  lemma DispatchClosesIff(s: Server, c: ConnId, ev: Events)
    requires Inv(s) && Legal(s, Dispatch(c, ev)) && Sound(s, Dispatch(c, ev)) && s.conns[c].marks == [Established]
    ensures var s', hangUp := Next(s, Dispatch(c, ev)), ev.hup && !ev.readable;
            var ended := ev.atEnd && (ev.readable || ev.urgent || ev.peerClosed);
            var conn := s'.conns[c];
            && (conn.marks == [Established] <==> !hangUp && !ended)
            && (!hangUp && !ended ==> s' == s)
            && (hangUp || ended ==>
                  && conn.state == Disconnected && !conn.reading && !conn.writing && !conn.polled
                  && (Registered(s', c) <==> conn.loop != BASE)
                  && conn.marks == (if conn.loop == BASE then [Established, Closed, Erased] else [Established, Closed])
                  && s'.queues == s.queues[BASE := s.queues[BASE] +
                       [if conn.loop == BASE then ToDestroy(c) else ToRemove(c)]])
  {
    assert Registered(s, c);
  }

  /** After `shutdown` the loop's thread sends nothing more. */
  lemma ShutdownStopsSends(s: Server, c: ConnId, whole: bool)
    requires Inv(s) && Legal(s, UserShutdown(c))
    ensures var s' := Next(s, UserShutdown(c));
            && Legal(s', UserSend(c, whole)) && Next(s', UserSend(c, whole)) == s'
            && s'.conns[c].marks == s.conns[c].marks
  {
    assert s.conns[c].state == Connected ==> Next(s, UserShutdown(c)).conns[c].state == Disconnecting;
  }

  /** A write event that empties the backlog leaves an open connection watched, and a closed one not. */
  lemma CompleteFlush(s: Server, c: ConnId)
    requires Inv(s) && Legal(s, Flush(c, true))
    ensures var conn := Next(s, Flush(c, true)).conns[c];
            && conn.marks == s.conns[c].marks && conn.state == s.conns[c].state
            && !conn.waiting && !conn.writing && !Revived(conn)
            && (conn.polled <==> conn.marks == [Established])
  {
    MarksOfStage(s.conns[c]);
  }

  // ---------- every sound step keeps the invariant ----------

  /** Only connection `c` differs, and it stays on its loop. */
  ghost predicate Moved(conns: seq<Conn>, conns': seq<Conn>, c: ConnId) {
    && c < |conns| == |conns'| && conns'[c].loop == conns[c].loop
    && (forall d :: 0 <= d < |conns| && d != c ==> conns'[d] == conns[d])
    && |conns[c].marks| <= |conns'[c].marks|
  }

  /** As `QueuesMatch`, with nothing due queued for `c`. */
  ghost predicate MatchWithout(conns: seq<Conn>, queues: seq<seq<Item>>, c: ConnId) {
    forall l, item: Item :: 0 <= l < |queues| && !item.ToSend? ==>
      Count(queues[l], item) == if item.c != c && Due(conns, l, item) then 1 else 0
  }

  predicate Waits(conn: Conn) {
    |conn.marks| in {0, 2, 3}
  }

  lemma PopLeaves(s: Server, l: LoopId)
    requires Inv(s) && l < |s.queues| && s.queues[l] != []
    ensures var queues, item := s.queues[l := s.queues[l][1..]], s.queues[l][0];
            && (if item.ToSend? then QueuesMatch(s.conns, queues) else MatchWithout(s.conns, queues, item.c))
            && SendsPlaced(s.conns, queues)
  {
    HeadIsPlaced(s, l);
    var queues, head := s.queues[l := s.queues[l][1..]], s.queues[l][0];
    forall l', item: Item | 0 <= l' < |queues| && !item.ToSend?
      ensures Count(queues[l'], item) ==
                if (head.ToSend? || item.c != head.c) && Due(s.conns, l', item) then 1 else 0
    {
      PopCount(s.queues[l], item);
      if !head.ToSend? && item.c == head.c {
        DueOnce(s.conns, l, head, l', item);
      }
    }
    SendsPopped(s.conns, s.queues, l);
  }

  lemma SendsPopped(conns: seq<Conn>, queues: seq<seq<Item>>, l: LoopId)
    requires SendsPlaced(conns, queues) && l < |queues| && queues[l] != []
    ensures SendsPlaced(conns, queues[l := queues[l][1..]])
  {
    assert forall i :: 0 <= i < |queues[l][1..]| ==> queues[l][1..][i] == queues[l][i + 1];
  }

  lemma IdleLeaves(conns: seq<Conn>, queues: seq<seq<Item>>, c: ConnId)
    requires QueuesMatch(conns, queues) && (c < |conns| ==> !Waits(conns[c]))
    ensures MatchWithout(conns, queues, c)
  {
  }

  lemma Settles(conns: seq<Conn>, conns': seq<Conn>, queues: seq<seq<Item>>, c: ConnId)
    requires MatchWithout(conns, queues, c) && Moved(conns, conns', c) && !Waits(conns'[c])
    ensures QueuesMatch(conns', queues)
  {
  }

  /** A connection waits for one functor on one loop. */
  lemma DueOnce(conns: seq<Conn>, l: LoopId, item: Item, l': LoopId, item': Item)
    requires Due(conns, l, item) && item'.c == item.c
    ensures Due(conns, l', item') <==> l' == l && item' == item
  {
  }

  /** Queueing the functor that `c` now waits for. */
  lemma Enqueues(conns: seq<Conn>, conns': seq<Conn>, queues: seq<seq<Item>>, c: ConnId, l: LoopId, item: Item)
    requires MatchWithout(conns, queues, c) && Moved(conns, conns', c)
    requires l < |queues| && item.c == c && Due(conns', l, item)
    ensures QueuesMatch(conns', queues[l := queues[l] + [item]])
  {
    var queues' := queues[l := queues[l] + [item]];
    forall l', x: Item | 0 <= l' < |queues'| && !x.ToSend?
      ensures Count(queues'[l'], x) == if Due(conns', l', x) then 1 else 0
    {
      PostCount(queues[l], item, x);
      if x.c == c {
        DueOnce(conns', l, item, l', x);
      } else {
        assert Due(conns', l', x) == Due(conns, l', x);
      }
    }
  }

  lemma SendEnqueues(conns: seq<Conn>, queues: seq<seq<Item>>, l: LoopId, item: Item)
    requires QueuesMatch(conns, queues) && l < |queues| && item.ToSend?
    ensures QueuesMatch(conns, queues[l := queues[l] + [item]])
  {
    forall x: Item | !x.ToSend?
      ensures Count(queues[l] + [item], x) == Count(queues[l], x)
    {
      PostCount(queues[l], item, x);
    }
  }

  /** Moving a connection on, and queueing anything behind, leaves the queued sends where they belong. */
  lemma SendsStay(conns: seq<Conn>, conns': seq<Conn>, queues: seq<seq<Item>>, c: ConnId, l: LoopId, item: Item)
    requires SendsPlaced(conns, queues) && Moved(conns, conns', c)
    requires l < |queues| && (item.ToSend? ==> Placed(conns', l, item))
    ensures SendsPlaced(conns', queues) && SendsPlaced(conns', queues[l := queues[l] + [item]])
  {
  }

  lemma RegistryKeeps(name: string, conns: seq<Conn>, conns': seq<Conn>, registry: map<string, ConnId>, c: ConnId)
    requires RegistryMatches(name, conns, registry) && Moved(conns, conns', c)
    requires |conns[c].marks| <= 2 <==> |conns'[c].marks| <= 2
    ensures RegistryMatches(name, conns', registry)
  {
  }

  lemma RegistryErases(name: string, conns: seq<Conn>, conns': seq<Conn>, registry: map<string, ConnId>, c: ConnId)
    requires RegistryMatches(name, conns, registry) && Moved(conns, conns', c)
    requires |conns[c].marks| <= 2 && |conns'[c].marks| > 2
    ensures RegistryMatches(name, conns', registry - {NameOf(name, c)})
    ensures |registry - {NameOf(name, c)}| == |registry| - 1
  {
    forall d | 0 <= d < |conns| && d != c
      ensures NameOf(name, d) != NameOf(name, c)
    {
      NamesDiffer(name, c, d);
    }
    assert (registry - {NameOf(name, c)}).Keys == registry.Keys - {NameOf(name, c)};
    assert |registry.Keys - {NameOf(name, c)}| == |registry.Keys| - 1;
  }

  lemma RegistryAdds(name: string, conns: seq<Conn>, conn: Conn, registry: map<string, ConnId>)
    requires RegistryMatches(name, conns, registry) && conn.marks <= [Established]
    ensures RegistryMatches(name, conns + [conn], registry[NameOf(name, |conns|) := |conns|])
  {
    forall d | 0 <= d < |conns|
      ensures NameOf(name, d) != NameOf(name, |conns|)
    {
      NamesDiffer(name, |conns|, d);
    }
  }

  lemma NobodyWaits(conns: seq<Conn>, conn: Conn, queues: seq<seq<Item>>)
    requires QueuesMatch(conns, queues) && SendsPlaced(conns, queues)
    ensures MatchWithout(conns + [conn], queues, |conns|) && SendsPlaced(conns + [conn], queues)
  {
    IdleLeaves(conns, queues, |conns|);
  }

  lemma AcceptedIsQueued(conns: seq<Conn>, conns': seq<Conn>, queues: seq<seq<Item>>, l: LoopId)
    requires QueuesMatch(conns, queues) && SendsPlaced(conns, queues) && l < |queues|
    requires |conns'| == |conns| + 1 && conns'[..|conns|] == conns && conns'[|conns|].loop == l
    ensures |conns'[|conns|].marks| == 1 ==> QueuesMatch(conns', queues) && SendsPlaced(conns', queues)
    ensures |conns'[|conns|].marks| == 0 ==>
              var queues' := queues[l := queues[l] + [ToEstablish(|conns|)]];
              QueuesMatch(conns', queues') && SendsPlaced(conns', queues')
  {
    var c, conn := |conns|, conns'[|conns|];
    assert conns' == conns + [conn];
    NobodyWaits(conns, conn, queues);
    SendsStay(conns', conns', queues, c, l, ToEstablish(c));
    if |conn.marks| == 1 {
      Settles(conns', conns', queues, c);
    } else if |conn.marks| == 0 {
      Enqueues(conns', conns', queues, c, l, ToEstablish(c));
    }
  }

  /** The map gains the new connection and no other, under the server's name and the count of connections so far. */
  lemma AcceptNames(s: Server, l: LoopId)
    requires Inv(s) && l < |s.queues|
    ensures var c, s' := |s.conns|, Accepted(s, l);
            && s'.registry == s.registry[s.name + "#" + Decimal(c + 1) := c]
            && s.name + "#" + Decimal(c + 1) !in s.registry
            && s'.conns[..c] == s.conns && s'.conns[c].loop == l && |s'.conns| == c + 1
            && (s'.conns[c].marks == [Established] <==> l == BASE)
  {
    StepIsSoundIff(s, NewConnection(l));
  }

  lemma AcceptKeeps(s: Server, l: LoopId)
    requires Inv(s) && l < |s.queues|
    ensures Inv(Accepted(s, l))
  {
    var c, s' := |s.conns|, Accepted(s, l);
    assert s'.conns == s.conns + [s'.conns[c]];
    RegistryAdds(s.name, s.conns, s'.conns[c], s.registry);
    AcceptedIsQueued(s.conns, s'.conns, s.queues, l);
  }

  lemma RemoveKeeps(s: Server, queues: seq<seq<Item>>, c: ConnId)
    requires Inv(s) && |queues| == |s.queues| && MatchWithout(s.conns, queues, c) && SendsPlaced(s.conns, queues)
    requires c < |s.conns| && |s.conns[c].marks| == 2
    ensures Inv(RemoveNow(s.(queues := queues), c))
  {
    var conns' := RemoveNow(s.(queues := queues), c).conns;
    Enqueues(s.conns, conns', queues, c, s.conns[c].loop, ToDestroy(c));
    SendsStay(s.conns, conns', queues, c, s.conns[c].loop, ToDestroy(c));
    RegistryErases(s.name, s.conns, conns', s.registry, c);
  }

  /** Establishing a new connection, and destroying an erased one, keep everything in step. */
  lemma SettleKeeps(s: Server, queues: seq<seq<Item>>, c: ConnId)
    requires Inv(s) && |queues| == |s.queues| && MatchWithout(s.conns, queues, c) && SendsPlaced(s.conns, queues)
    requires c < |s.conns|
    ensures |s.conns[c].marks| == 0 ==> Inv(EstablishNow(s.(queues := queues), c))
    ensures |s.conns[c].marks| == 3 ==> Inv(DestroyNow(s.(queues := queues), c))
  {
    if |s.conns[c].marks| == 0 {
      var conns' := EstablishNow(s.(queues := queues), c).conns;
      Settles(s.conns, conns', queues, c);
      RegistryKeeps(s.name, s.conns, conns', s.registry, c);
    } else if |s.conns[c].marks| == 3 {
      var conns' := DestroyNow(s.(queues := queues), c).conns;
      Settles(s.conns, conns', queues, c);
      RegistryKeeps(s.name, s.conns, conns', s.registry, c);
    }
  }

  /** A change within a stage: of the state before the close, or of what waits to be written. */
  lemma WithinStage(s: Server, c: ConnId, conn: Conn)
    requires Inv(s) && c < |s.conns| && Staged(conn)
    requires conn.loop == s.conns[c].loop && conn.marks == s.conns[c].marks
    ensures Inv(s.(conns := s.conns[c := conn]))
  {
    var conns' := s.conns[c := conn];
    RegistryKeeps(s.name, s.conns, conns', s.registry, c);
    assert forall l, item: Item :: Due(conns', l, item) == Due(s.conns, l, item);
    SendsStay(s.conns, conns', s.queues, c, BASE, ToRemove(c));
  }

  lemma SendKeeps(s: Server, c: ConnId, whole: bool)
    requires Inv(s) && c < |s.conns| && s.conns[c].marks != []
    ensures Inv(SendNow(s, c, whole))
  {
    var conn := s.conns[c];
    if !conn.writing && !conn.waiting && !whole {
      WithinStage(s, c, conn.(waiting := true, writing := true, polled := true));
    }
  }

  lemma FlushKeeps(s: Server, c: ConnId, whole: bool)
    requires Inv(s) && c < |s.conns| && s.conns[c].marks != []
    ensures Inv(FlushNow(s, c, whole))
  {
    var conn := s.conns[c];
    if conn.writing && whole {
      WithinStage(s, c, conn.(waiting := false, writing := false, polled := conn.reading));
    }
  }

  lemma PopKeeps(s: Server, l: LoopId)
    requires Inv(s) && l < |s.queues| && s.queues[l] != []
    ensures s.queues[l][0].ToSend? ==> Inv(s.(queues := s.queues[l := s.queues[l][1..]]))
  {
    PopLeaves(s, l);
  }

  lemma RunKeeps(s: Server, l: LoopId, whole: bool)
    requires Inv(s) && l < |s.queues| && s.queues[l] != []
    ensures Sound(s, RunNext(l, whole)) && Inv(Next(s, RunNext(l, whole)))
  {
    StepIsSoundIff(s, RunNext(l, whole));
    var item, popped := s.queues[l][0], s.queues[l := s.queues[l][1..]];
    HeadIsPlaced(s, l);
    PopLeaves(s, l);
    match item
    case ToSend(c) => SendKeeps(s.(queues := popped), c, whole);
    case ToRemove(c) => RemoveKeeps(s, popped, c);
    case _ => SettleKeeps(s, popped, item.c);
  }

  lemma CloseKeeps(s: Server, c: ConnId)
    requires Inv(s) && c < |s.conns| && Closable(s, c)
    ensures Inv(CloseNow(s, c)) && !Closable(CloseNow(s, c), c)
  {
    var s' := CloseNow(s, c);
    MarksOfStage(s.conns[c]);
    IdleLeaves(s.conns, s.queues, c);
    SendsStay(s.conns, s'.conns, s.queues, c, BASE, ToDestroy(c));
    SendsStay(s.conns, s'.conns, s.queues, c, BASE, ToRemove(c));
    if s.conns[c].loop == BASE {
      Enqueues(s.conns, s'.conns, s.queues, c, BASE, ToDestroy(c));
      RegistryErases(s.name, s.conns, s'.conns, s.registry, c);
    } else {
      Enqueues(s.conns, s'.conns, s.queues, c, BASE, ToRemove(c));
      RegistryKeeps(s.name, s.conns, s'.conns, s.registry, c);
    }
  }

  lemma NextKeeps(s: Server, st: Step)
    requires Inv(s) && Legal(s, st) && Sound(s, st)
    ensures Inv(Next(s, st))
  {
    match st
    case NewConnection(l) => AcceptKeeps(s, l);
    case RunNext(l, whole) => RunKeeps(s, l, whole);
    case Dispatch(c, ev) =>
      if Closings(ev) >= 1 {
        CloseKeeps(s, c);
      }
    case Flush(c, whole) => FlushKeeps(s, c, whole);
    case UserSend(c, whole) =>
      if s.conns[c].state == Connected {
        SendKeeps(s, c, whole);
      }
    case SendElsewhere(c) =>
      SendEnqueues(s.conns, s.queues, s.conns[c].loop, ToSend(c));
      SendsStay(s.conns, s.conns, s.queues, c, s.conns[c].loop, ToSend(c));
    case UserShutdown(c) =>
      if s.conns[c].state == Connected {
        WithinStage(s, c, s.conns[c].(state := Disconnecting));
      }
    case ShutdownElsewhere(c) => WithinStage(s, c, s.conns[c].(state := Disconnecting));
  }

  // ---------- whole runs ----------

  /** A run in which no assertion has failed. */
  ghost predicate LegalRun(name: string, loops: nat, steps: seq<Step>)
    requires loops > 0
    decreases |steps|, 0
  {
    steps == [] ||
    (var init, st := steps[..|steps| - 1], steps[|steps| - 1];
     && LegalRun(name, loops, init)
     && Legal(Run(name, loops, init), st) && Sound(Run(name, loops, init), st))
  }

  ghost function Run(name: string, loops: nat, steps: seq<Step>): (s: Server)
    requires loops > 0 && LegalRun(name, loops, steps)
    ensures Inv(s) && |s.queues| == loops
    decreases |steps|, 1
  {
    if steps == [] then Init(name, loops)
    else
      var init, st := steps[..|steps| - 1], steps[|steps| - 1];
      var s := Run(name, loops, init);
      NextKeeps(s, st);
      Next(s, st)
  }

  lemma MarksOfStage(conn: Conn)
    requires Staged(conn)
    ensures conn.marks == [] || conn.marks == [Established] || conn.marks == [Established, Closed]
         || conn.marks == [Established, Closed, Erased] || conn.marks == WHOLE_LIFE
    ensures conn.marks <= WHOLE_LIFE
  {
  }

  lemma LifeIsOrdered(s: Server, c: ConnId)
    requires Inv(s) && c < |s.conns|
    ensures var conn := s.conns[c];
            && conn.marks <= WHOLE_LIFE
            && (conn.marks == [] <==> conn.state == Connecting)
            && (conn.state == Disconnected ==> Closed in conn.marks)
            && (conn.state == Connected ==> conn.marks == [Established])
            && (conn.reading <==> conn.marks == [Established])
            && (Registered(s, c) <==> Erased !in conn.marks)
  {
    MarksOfStage(s.conns[c]);
  }

  /** In every run, on any number of loops, with sends from any thread: each connection's calls are a prefix of
      established, closed, erased, destroyed, each at most once; it is established from `Connecting` and disconnected
      only by a close; and the map holds it, under a name of its own, exactly until it is erased. */
  lemma LivesAreOrdered(name: string, loops: nat, steps: seq<Step>, c: ConnId)
    requires loops > 0 && LegalRun(name, loops, steps) && c < |Run(name, loops, steps).conns|
    ensures var s := Run(name, loops, steps);
            var conn := s.conns[c];
            && conn.marks <= WHOLE_LIFE
            && (conn.marks == [] <==> conn.state == Connecting)
            && (conn.state == Disconnected ==> Closed in conn.marks)
            && (conn.state == Connected ==> conn.marks == [Established])
            && (conn.reading <==> conn.marks == [Established])
            && (Registered(s, c) <==> Erased !in conn.marks)
  {
    LifeIsOrdered(Run(name, loops, steps), c);
  }

  lemma LifeIsSettled(s: Server, c: ConnId)
    requires Inv(s) && c < |s.conns| && forall q <- s.queues :: q == []
    ensures Closed in s.conns[c].marks ==> s.conns[c].marks == WHOLE_LIFE && !Registered(s, c)
    ensures Closed !in s.conns[c].marks ==> s.conns[c].marks == [Established] && Registered(s, c)
  {
    LifeIsOrdered(s, c);
    var conn := s.conns[c];
    MarksOfStage(conn);
    var item := if |conn.marks| == 0 then ToEstablish(c) else if |conn.marks| == 2 then ToRemove(c) else ToDestroy(c);
    var l := if item.ToRemove? then BASE else conn.loop;
    assert s.queues[l] in s.queues;
    assert Count(s.queues[l], item) == 0;
    assert !Due(s.conns, l, item);
  }

  /** When no functor is left, every connection is either open and in the map, or closed, erased and destroyed. */
  lemma DrainedIsSettled(name: string, loops: nat, steps: seq<Step>, c: ConnId)
    requires loops > 0 && LegalRun(name, loops, steps) && c < |Run(name, loops, steps).conns|
    requires forall q <- Run(name, loops, steps).queues :: q == []
    ensures var s := Run(name, loops, steps);
            if Closed in s.conns[c].marks
            then s.conns[c].marks == WHOLE_LIFE && !Registered(s, c)
            else s.conns[c].marks == [Established] && Registered(s, c)
  {
    LifeIsSettled(Run(name, loops, steps), c);
  }

  // ---------- when the assertions hold ----------

  predicate TameStep(st: Step) {
    st.Dispatch? ==> Tame(st.ev)
  }

  /** Nothing that can happen next fails an assertion. */
  ghost predicate Safe(s: Server) {
    forall st :: Legal(s, st) && TameStep(st) ==> Sound(s, st)
  }

  ghost predicate NoneRevived(s: Server) {
    forall c :: 0 <= c < |s.conns| ==> !Revived(s.conns[c])
  }

  const HANG_UP: Events := Events(true, false, false, false, false)
  const END: Events := Events(false, true, false, false, true)

  lemma SafeIff(s: Server)
    requires Inv(s)
    ensures Safe(s) <==> NoneRevived(s)
  {
    forall st | Legal(s, st) && TameStep(st)
      ensures NoneRevived(s) ==> Sound(s, st)
    {
      StepIsSoundIff(s, st);
    }
    forall c | 0 <= c < |s.conns| && Revived(s.conns[c])
      ensures !Safe(s)
    {
      var st := Dispatch(c, HANG_UP);
      assert Legal(s, st) && TameStep(st);
      StepIsSoundIff(s, st);
    }
  }

  /** A queued send finds its connection closed with nothing waiting, and its write is incomplete. */
  predicate Revives(s: Server, st: Step)
    requires Legal(s, st)
  {
    && st.RunNext? && !st.whole && s.queues[st.l][0].ToSend?
    && var c := s.queues[st.l][0].c;
       c < |s.conns| && Closed in s.conns[c].marks && !s.conns[c].writing && !s.conns[c].waiting
  }

  lemma NextRevives(s: Server, st: Step)
    requires Inv(s) && NoneRevived(s) && Legal(s, st) && Sound(s, st)
    ensures NoneRevived(Next(s, st)) <==> !Revives(s, st)
  {
    if st.RunNext? {
      HeadIsPlaced(s, st.l);
      if Revives(s, st) {
        assert Revived(Next(s, st).conns[s.queues[st.l][0].c]);
      }
    }
  }

  ghost predicate SomeRevives(name: string, loops: nat, steps: seq<Step>)
    requires loops > 0 && LegalRun(name, loops, steps)
  {
    steps != [] &&
    (var init, st := steps[..|steps| - 1], steps[|steps| - 1];
     SomeRevives(name, loops, init) || Revives(Run(name, loops, init), st))
  }

  ghost predicate AlwaysSafe(name: string, loops: nat, steps: seq<Step>)
    requires loops > 0 && LegalRun(name, loops, steps)
  {
    && Safe(Run(name, loops, steps))
    && (steps != [] ==> AlwaysSafe(name, loops, steps[..|steps| - 1]))
  }

  /** Over every run of tame dispatches: at no point can an assertion fail next, if and only if no queued send has found
      its connection closed, with nothing waiting, and written incompletely. */
  lemma {:induction false} AlwaysSafeIff(name: string, loops: nat, steps: seq<Step>)
    requires loops > 0 && LegalRun(name, loops, steps)
    ensures AlwaysSafe(name, loops, steps) <==> !SomeRevives(name, loops, steps)
  {
    SafeIff(Run(name, loops, steps));
    if steps != [] {
      var init, st := steps[..|steps| - 1], steps[|steps| - 1];
      AlwaysSafeIff(name, loops, init);
      SafeIff(Run(name, loops, init));
      if !SomeRevives(name, loops, init) {
        SafeNow(name, loops, init);
        NextRevives(Run(name, loops, init), st);
      }
    }
  }

  lemma SafeNow(name: string, loops: nat, steps: seq<Step>)
    requires loops > 0 && LegalRun(name, loops, steps) && AlwaysSafe(name, loops, steps)
    ensures Safe(Run(name, loops, steps))
  {
  }

  lemma RunStep(name: string, loops: nat, steps: seq<Step>, st: Step)
    requires loops > 0 && LegalRun(name, loops, steps)
    requires Legal(Run(name, loops, steps), st) && Sound(Run(name, loops, steps), st)
    ensures LegalRun(name, loops, steps + [st])
    ensures Run(name, loops, steps + [st]) == Next(Run(name, loops, steps), st)
  {
    assert (steps + [st])[..|steps|] == steps;
  }

  lemma SendBeforeEnd(s: Server, c: ConnId)
    requires Inv(s) && c < |s.conns| && Closable(s, c) && !s.conns[c].waiting && s.queues[s.conns[c].loop] == []
    ensures Legal(s, SendElsewhere(c))
    ensures var s1 := Next(s, SendElsewhere(c));
            && Legal(s1, Dispatch(c, END)) && Sound(s1, Dispatch(c, END))
            && var s2 := Next(s1, Dispatch(c, END));
               && |s2.conns| == |s.conns| && s2.conns[c].loop == s.conns[c].loop
               && |s2.queues| == |s.queues| && s2.queues[s.conns[c].loop] != []
               && s2.queues[s.conns[c].loop][0] == ToSend(c)
               && Closed in s2.conns[c].marks && !s2.conns[c].waiting && !s2.conns[c].writing
  {
    MarksOfStage(s.conns[c]);
    NextKeeps(s, SendElsewhere(c));
    var s1 := Next(s, SendElsewhere(c));
    StepIsSoundIff(s1, Dispatch(c, END));
  }

  lemma LateSendRevives(s: Server, c: ConnId, l: LoopId)
    requires Inv(s) && c < |s.conns| && l == s.conns[c].loop && s.queues[l] != [] && s.queues[l][0] == ToSend(c)
    requires Closed in s.conns[c].marks && !s.conns[c].waiting && !s.conns[c].writing
    ensures var st := RunNext(l, false);
            && Legal(s, st) && Sound(s, st)
            && var s' := Next(s, st);
               && c < |s'.conns| && Revived(s'.conns[c])
               && Legal(s', Dispatch(c, HANG_UP)) && !Sound(s', Dispatch(c, HANG_UP))
  {
    RunKeeps(s, l, false);
    StepIsSoundIff(Next(s, RunNext(l, false)), Dispatch(c, HANG_UP));
  }

  /** It happens: from any open connection with nothing waiting and no functor queued on its loop, a send from
      another thread (which, if the connection is shutting down, tested the state earlier), the end of the stream, and
      the functor's incomplete write lead to a state in which a plain hang-up closes the connection a second time,
      against the assertion. */
  lemma LateSendReopens(name: string, loops: nat, steps: seq<Step>, c: ConnId)
    requires loops > 0 && LegalRun(name, loops, steps) && c < |Run(name, loops, steps).conns|
    requires var s := Run(name, loops, steps);
             Closable(s, c) && !s.conns[c].waiting && s.queues[s.conns[c].loop] == []
    ensures var l := Run(name, loops, steps).conns[c].loop;
            var steps' := steps + [SendElsewhere(c)] + [Dispatch(c, END)] + [RunNext(l, false)];
            && LegalRun(name, loops, steps')
            && var s' := Run(name, loops, steps');
               && c < |s'.conns| && Revived(s'.conns[c])
               && Legal(s', Dispatch(c, HANG_UP)) && !Sound(s', Dispatch(c, HANG_UP))
  {
    var s := Run(name, loops, steps);
    var l := s.conns[c].loop;
    SendBeforeEnd(s, c);
    RunStep(name, loops, steps, SendElsewhere(c));
    var steps1 := steps + [SendElsewhere(c)];
    RunStep(name, loops, steps1, Dispatch(c, END));
    var steps2 := steps1 + [Dispatch(c, END)];
    LateSendRevives(Run(name, loops, steps2), c, l);
    RunStep(name, loops, steps2, RunNext(l, false));
  }

  // ---------- when a closed connection is in `kDisconnected` ----------

  /** As the destructor asserts. */
  ghost predicate ClosedAreDisconnected(s: Server) {
    forall c :: 0 <= c < |s.conns| && Closed in s.conns[c].marks ==> s.conns[c].state == Disconnected
  }

  /** A `shutdown` on another thread tested the state before the close, and stores it after. */
  predicate StaleStore(s: Server, st: Step)
    requires Legal(s, st)
  {
    st.ShutdownElsewhere? && Closed in s.conns[st.c].marks
  }

  ghost predicate SomeStaleStore(name: string, loops: nat, steps: seq<Step>)
    requires loops > 0 && LegalRun(name, loops, steps)
  {
    steps != [] &&
    (var init, st := steps[..|steps| - 1], steps[|steps| - 1];
     SomeStaleStore(name, loops, init) || StaleStore(Run(name, loops, init), st))
  }

  /** A functor neither closes a connection nor changes the state of a closed one. */
  lemma FunctorKeepsState(s: Server, item: Item, whole: bool, c: ConnId)
    requires item.c < |s.conns| && s.conns[item.c].loop < |s.queues| && c < |s.conns|
    requires item.ToEstablish? ==> s.conns[item.c].marks == []
    requires Closed in s.conns[c].marks ==> s.conns[c].state != Connected
    ensures var s' := Execute(s, item, whole);
            && |s'.conns| == |s.conns|
            && (Closed in s'.conns[c].marks <==> Closed in s.conns[c].marks)
            && (Closed in s.conns[c].marks ==> s'.conns[c].state == s.conns[c].state)
  {
  }

  lemma StateStays(s: Server, st: Step, c: ConnId)
    requires Inv(s) && Legal(s, st) && Sound(s, st) && c < |s.conns| && Closed in s.conns[c].marks
    ensures var s' := Next(s, st);
            && c < |s'.conns| && Closed in s'.conns[c].marks
            && (s'.conns[c].state == Disconnected <==>
                  s.conns[c].state == Disconnected && !(st.ShutdownElsewhere? && st.c == c))
  {
    MarksOfStage(s.conns[c]);
    if st.RunNext? {
      FunctorKeepsState(s.(queues := s.queues[st.l := s.queues[st.l][1..]]), s.queues[st.l][0], st.whole, c);
    }
  }

  lemma NextDisconnects(s: Server, st: Step, c: ConnId)
    requires Inv(s) && Legal(s, st) && Sound(s, st) && c < |Next(s, st).conns|
    requires Closed in Next(s, st).conns[c].marks && (c < |s.conns| ==> Closed !in s.conns[c].marks)
    ensures Next(s, st).conns[c].state == Disconnected
  {
    if c < |s.conns| {
      MarksOfStage(s.conns[c]);
      if st.RunNext? {
        FunctorKeepsState(s.(queues := s.queues[st.l := s.queues[st.l][1..]]), s.queues[st.l][0], st.whole, c);
      }
    }
  }

  lemma NextStale(s: Server, st: Step)
    requires Inv(s) && Legal(s, st) && Sound(s, st)
    ensures ClosedAreDisconnected(Next(s, st)) <==> ClosedAreDisconnected(s) && !StaleStore(s, st)
  {
    var s' := Next(s, st);
    forall c | 0 <= c < |s.conns| && Closed in s.conns[c].marks
      ensures c < |s'.conns| && Closed in s'.conns[c].marks
      ensures s'.conns[c].state == Disconnected <==>
                s.conns[c].state == Disconnected && !(st.ShutdownElsewhere? && st.c == c)
    {
      StateStays(s, st, c);
    }
    forall c | 0 <= c < |s'.conns| && Closed in s'.conns[c].marks && (c < |s.conns| ==> Closed !in s.conns[c].marks)
      ensures s'.conns[c].state == Disconnected
    {
      NextDisconnects(s, st, c);
    }
  }

  /** Over every run in which no assertion has failed: every closed connection is in `kDisconnected`, where its
      destructor wants it, if and only if no `shutdown` on another thread stored the state after the close. */
  lemma {:induction false} ClosedAreDisconnectedIff(name: string, loops: nat, steps: seq<Step>)
    requires loops > 0 && LegalRun(name, loops, steps)
    ensures ClosedAreDisconnected(Run(name, loops, steps)) <==> !SomeStaleStore(name, loops, steps)
  {
    if steps != [] {
      var init, st := steps[..|steps| - 1], steps[|steps| - 1];
      ClosedAreDisconnectedIff(name, loops, init);
      NextStale(Run(name, loops, init), st);
    }
  }
}

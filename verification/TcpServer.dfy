// The server object of net/TcpServer.cpp with its connections' life cycle, updated in place. The asserts are the
// source's own; ConnectionLifecycle shows why they hold, and when the one of `handleClose` does not.
module TcpServer {
  import opened Octets
  import CO = ConnectionOutput
  import opened ConnectionLifecycle

  class TcpServer {
    const name: string
    var nextConnectionId: nat
    var connectionMap: map<string, ConnId>
    var conns: seq<Conn>              // the connection objects, by order of creation
    var queues: seq<seq<Item>>        // what is queued on each loop

    function Value(): Server
      reads this
    {
      Server(name, nextConnectionId, connectionMap, conns, queues)
    }

    ghost predicate Valid()
      reads this
    {
      Inv(Value())
    }

    constructor (name: string, loops: nat)
      requires loops > 0
      ensures Valid() && Value() == Init(name, loops)
    {
      this.name := name;
      nextConnectionId, connectionMap, conns, queues := 1, map[], [], seq(loops, _ => []);
    }

    method QueueInLoop(l: LoopId, item: Item)
      requires l < |queues|
      modifies this`queues
      ensures Value() == Post(old(Value()), l, item)
    {
      queues := queues[l := queues[l] + [item]];
    }

    /** The connection is open and watched for reading; nothing else changes, in it or elsewhere. */
    method ConnectionEstablished(c: ConnId)
      requires c < |conns| && conns[c].state == CO.Connecting
      modifies this`conns
      ensures |conns| == old(|conns|) && forall d :: 0 <= d < |conns| && d != c ==> conns[d] == old(conns[d])
      ensures conns[c].state == CO.Connected && conns[c].reading && conns[c].polled
      ensures conns[c].marks == old(conns[c].marks) + [Established]
      ensures conns[c].loop == old(conns[c].loop)
      ensures conns[c].waiting == old(conns[c].waiting) && conns[c].writing == old(conns[c].writing)
    {
      assert conns[c].state == CO.Connecting;
      var conn := conns[c];
      conns := conns[c := conn.(state := CO.Connected, reading := true, polled := true,
                                marks := conn.marks + [Established])];
    }

    /** No event comes from the connection any more, and it is not connected; a close before is left as it was. */
    method ConnectionDestroyed(c: ConnId)
      requires c < |conns|
      modifies this`conns
      ensures |conns| == old(|conns|) && forall d :: 0 <= d < |conns| && d != c ==> conns[d] == old(conns[d])
      ensures !conns[c].polled && conns[c].state != CO.Connected
      ensures conns[c].marks == old(conns[c].marks) + [Destroyed]
      ensures conns[c].loop == old(conns[c].loop) && conns[c].waiting == old(conns[c].waiting)
      ensures old(conns[c].state) != CO.Connected ==>
                conns[c].state == old(conns[c].state)
                && conns[c].reading == old(conns[c].reading) && conns[c].writing == old(conns[c].writing)
      ensures old(conns[c].state) == CO.Connected ==>
                conns[c].state == CO.Disconnected && !conns[c].reading && !conns[c].writing
    {
      var conn := conns[c];
      if conn.state == CO.Connected {
        conn := Disabled(conn);
      }
      conns := conns[c := conn.(polled := false, marks := conn.marks + [Destroyed])];
    }

    /** A new connection under a new name, established on its loop. */
    method NewConnection(l: LoopId)
      requires Valid() && l < |queues|
      modifies this
      ensures Valid() && Sound(old(Value()), Step.NewConnection(l))
      ensures Value() == Next(old(Value()), Step.NewConnection(l))
      ensures |connectionMap| == old(|connectionMap|) + 1
    {
      StepIsSoundIff(Value(), Step.NewConnection(l));
      AcceptKeeps(Value(), l);
      var connectionName := name + "#" + Decimal(nextConnectionId);
      nextConnectionId := nextConnectionId + 1;
      var c := |conns|;
      conns := conns + [NEW.(loop := l)];
      assert connectionName !in connectionMap;
      connectionMap := connectionMap[connectionName := c];
      if l == BASE {
        ghost var before := conns;
        ConnectionEstablished(c);
        assert conns == before[c := conns[c]];
      } else {
        QueueInLoop(l, ToEstablish(c));
      }
    }

    method RemoveConnectionInLoop(c: ConnId)
      requires c < |conns| && conns[c].loop < |queues| && Registered(Value(), c)
      modifies this`connectionMap, this`conns, this`queues
      ensures Value() == RemoveNow(old(Value()), c)
      ensures |connectionMap| == old(|connectionMap|) - 1
    {
      var connectionName := NameOf(name, c);
      var n := if connectionName in connectionMap then 1 else 0;
      assert (connectionMap - {connectionName}).Keys == connectionMap.Keys - {connectionName};
      connectionMap := connectionMap - {connectionName};
      assert n == 1;
      conns := conns[c := conns[c].(marks := conns[c].marks + [Erased])];
      QueueInLoop(conns[c].loop, ToDestroy(c));
    }

    /** The close callback: on the base loop at once, from another loop as a functor. */
    method RemoveConnection(c: ConnId)
      requires c < |conns| && conns[c].loop < |queues| && BASE < |queues| && Registered(Value(), c)
      modifies this`connectionMap, this`conns, this`queues
      ensures Value() == if old(conns[c].loop) == BASE then RemoveNow(old(Value()), c)
                         else Post(old(Value()), BASE, ToRemove(c))
    {
      if conns[c].loop == BASE {
        RemoveConnectionInLoop(c);
      } else {
        QueueInLoop(BASE, ToRemove(c));
      }
    }

    /** `met` says whether the assertion of `handleClose` holds; otherwise it goes no further. A second close that
        passes it, after a late store by `shutdown`, would fail the assertion of the erase: it counts as not met. */
    method HandleClose(c: ConnId) returns (met: bool)
      requires Valid() && c < |conns|
      modifies this`connectionMap, this`conns, this`queues
      ensures Valid() && (met <==> old(Closable(Value(), c)))
      ensures Value() == if met then CloseNow(old(Value()), c) else old(Value())
      ensures old(conns[c].polled) ==> Closed in conns[c].marks
    {
      MarksOfStage(conns[c]);
      met := conns[c].state == CO.Connected || conns[c].state == CO.Disconnecting;
      if met && Closed !in conns[c].marks {
        CloseKeeps(Value(), c);
        var conn := conns[c];
        conns := conns[c := Disabled(conn).(marks := conn.marks + [Closed])];
        RemoveConnection(c);
      } else {
        met := false;
      }
    }

    /** `Channel::handleEventWithGuard`, as far as it may close the connection: `met` says that every assertion on
        the way holds. */
    method HandleEvent(c: ConnId, ev: Events) returns (met: bool)
      requires Valid() && Legal(Value(), Dispatch(c, ev))
      modifies this`connectionMap, this`conns, this`queues
      ensures Valid() && (met <==> Sound(old(Value()), Dispatch(c, ev)))
      ensures met ==> Value() == Next(old(Value()), Dispatch(c, ev))
      ensures if (ev.hup && !ev.readable) || (ev.atEnd && (ev.readable || ev.urgent || ev.peerClosed))
              then Closed in conns[c].marks else met && Value() == old(Value())
      ensures !met ==> Value() == old(if Closable(Value(), c) then CloseNow(Value(), c) else Value())
    {
      StepIsSoundIff(Value(), Dispatch(c, ev));
      met := true;
      if ev.hup && !ev.readable {
        met := HandleClose(c);
      }
      if met && (ev.readable || ev.urgent || ev.peerClosed) {
        if ev.atEnd {
          met := HandleClose(c);
        }
      }
    }

    /** `whole` says whether the kernel takes all of the message. */
    method SendInLoop(c: ConnId, whole: bool)
      requires Valid() && c < |conns| && conns[c].marks != []
      modifies this`conns
      ensures Valid() && Value() == SendNow(old(Value()), c, whole)
    {
      SendKeeps(Value(), c, whole);
      var conn := conns[c];
      if !conn.writing && !conn.waiting && !whole {
        conns := conns[c := conn.(waiting := true, writing := true, polled := true)];
      }
    }

    /** `send`, on the connection's loop or from another thread; only the call tests the state, not the functor. */
    method Send(c: ConnId, whole: bool, inLoop: bool)
      requires Valid() && c < |conns|
      modifies this`conns, this`queues
      ensures Valid()
      ensures Value() == if old(conns[c].state) != CO.Connected then old(Value())
                         else Next(old(Value()), if inLoop then UserSend(c, whole) else SendElsewhere(c))
    {
      if conns[c].state == CO.Connected {
        assert Staged(conns[c]);
        if inLoop {
          SendInLoop(c, whole);
        } else {
          NextKeeps(Value(), SendElsewhere(c));
          QueueInLoop(conns[c].loop, ToSend(c));
        }
      }
    }

    /** What the functor calls. */
    method Call(item: Item, whole: bool)
      requires item.c < |conns| && conns[item.c].loop < |queues|
      requires match item
               case ToEstablish(c) => conns[c].state == CO.Connecting
               case ToRemove(c) => Registered(Value(), c)
               case ToDestroy(_) => true
               case ToSend(c) => Valid() && conns[c].marks != []
      modifies this`connectionMap, this`conns, this`queues
      ensures Value() == Execute(old(Value()), item, whole)
      ensures item.ToRemove? ==> |connectionMap| == old(|connectionMap|) - 1
    {
      ghost var before := conns;
      match item {
        case ToEstablish(c) => ConnectionEstablished(c); assert conns == before[c := conns[c]];
        case ToRemove(c) => RemoveConnectionInLoop(c);
        case ToDestroy(c) => ConnectionDestroyed(c); assert conns == before[c := conns[c]];
        case ToSend(c) => SendInLoop(c, whole);
      }
    }

    /** The loop runs the functor at the head of its queue. */
    method RunNext(l: LoopId, whole: bool)
      requires Valid() && l < |queues| && queues[l] != []
      modifies this`connectionMap, this`conns, this`queues
      ensures Valid() && Sound(old(Value()), Step.RunNext(l, whole))
      ensures Value() == Next(old(Value()), Step.RunNext(l, whole))
      ensures old(queues[l][0]).ToRemove? ==> |connectionMap| == old(|connectionMap|) - 1
    {
      StepIsSoundIff(Value(), Step.RunNext(l, whole));
      RunKeeps(Value(), l, whole);
      HeadIsPlaced(Value(), l);
      PopKeeps(Value(), l);
      var item := queues[l][0];
      queues := queues[l := queues[l][1..]];
      Call(item, whole);
    }
  }
}

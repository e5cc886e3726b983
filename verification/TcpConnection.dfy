// The connection object of net/TcpConnection.cpp, with its buffers and its channel's interest mask,
// proved against ConnectionOutput. The kernel's answers are parameters.
module TcpConnection {
  import opened Octets
  import opened NetBuffer
  import opened HttpContext
  import opened ConnectionOutput

  class TcpConnection {
    var state: State
    var reading: bool
    var writing: bool
    const inputBuffer: Buffer
    const outputBuffer: Buffer
    const context: HttpContext
    var queued: seq<Later>            // this connection's functors on its loop

    ghost var wire: Bytes
    ghost var accepted: Bytes
    ghost var halfCloses: seq<nat>
    ghost var closed: bool

    ghost predicate Valid()
      reads this, inputBuffer, outputBuffer
    {
      && inputBuffer != outputBuffer
      && inputBuffer.storage != outputBuffer.storage
      && inputBuffer.Valid() && outputBuffer.Valid()
    }

    ghost function Value(): Output
      requires Valid()
      reads this, inputBuffer, outputBuffer, outputBuffer.storage
    {
      Output(state, outputBuffer.Contents(), writing, wire, accepted, halfCloses, queued, 0, closed)
    }

    constructor ()
      ensures Valid() && Value() == START && !reading
      ensures inputBuffer.Contents() == [] && context.Value() == HttpMessage.FRESH
      ensures fresh(inputBuffer) && fresh(outputBuffer) && fresh(context) && fresh(context.request)
      ensures fresh(inputBuffer.storage) && fresh(outputBuffer.storage)
    {
      state, reading, writing, queued := Connecting, false, false, [];
      inputBuffer := new Buffer();
      outputBuffer := new Buffer();
      context := new HttpContext();
      wire, accepted, halfCloses, closed := [], [], [], false;
    }

    method ConnectionEstablished()
      requires Valid() && state == Connecting
      modifies this`state, this`reading
      ensures Valid() && Value() == Established(old(Value())) && reading
    {
      state := Connected;
      reading := true;
    }

    method SendInLoop(message: Bytes, n: int)
      requires Valid() && WriteResult(n, |message|)
      modifies this`writing, this`wire, this`accepted, outputBuffer, outputBuffer.storage
      ensures Valid() && fresh({outputBuffer.storage} - {old(outputBuffer.storage)})
      ensures Value() == ConnectionOutput.SendInLoop(old(Value()), message, n)
      ensures |wire| == old(|wire|) + (if !old(writing) && old(Value().backlog) == [] && n > 0 then n else 0)
    {
      if !writing && outputBuffer.ReadableBytes() == 0 {
        assert outputBuffer.Contents() == [];
        wire := wire + message[..if n > 0 then n else 0];
        var sent := if n >= 0 then n else 0;
        accepted := accepted + message;
        if sent < |message| {
          outputBuffer.Append(message[sent..]);
          if !writing {
            writing := true;
          }
        }
      }
    }

    /** On the loop's thread the message is written now; from another thread it becomes a functor. */
    method Send(message: Bytes, n: int, inLoop: bool)
      requires Valid() && WriteResult(n, |message|)
      modifies this`writing, this`wire, this`accepted, this`queued, outputBuffer, outputBuffer.storage
      ensures Valid() && fresh({outputBuffer.storage} - {old(outputBuffer.storage)})
      ensures inLoop ==> Value() == ConnectionOutput.Send(old(Value()), message, n)
      ensures !inLoop ==> Value() == if old(state) == Connected then Queue(old(Value()), LaterSend(message))
                                     else old(Value())
    {
      if state == Connected {
        if inLoop {
          SendInLoop(message, n);
        } else {
          queued := queued + [LaterSend(message)];
        }
      }
    }

    method ShutdownInLoop()
      requires Valid()
      modifies this`halfCloses
      ensures Valid() && Value() == ConnectionOutput.ShutdownInLoop(old(Value()))
    {
      if !writing {
        halfCloses := halfCloses + [|wire|];
      }
    }

    method Shutdown(inLoop: bool)
      requires Valid()
      modifies this`state, this`halfCloses, this`queued
      ensures Valid()
      ensures inLoop ==> Value() == ConnectionOutput.Shutdown(old(Value()))
      ensures !inLoop ==> Value() == if old(state) == Connected
                                     then Queue(old(Value()).(state := Disconnecting), LaterHalfClose)
                                     else old(Value())
    {
      if state == Connected {
        state := Disconnecting;
        if inLoop {
          ShutdownInLoop();
        } else {
          queued := queued + [LaterHalfClose];
        }
      }
    }

    /** The loop runs this connection's oldest functor; nothing looks at the state again. */
    method RunFunctor(n: int)
      requires Valid() && queued != [] && (queued[0].LaterSend? ==> WriteResult(n, |queued[0].message|))
      modifies this`writing, this`wire, this`accepted, this`halfCloses, this`queued
      modifies outputBuffer, outputBuffer.storage
      ensures Valid() && fresh({outputBuffer.storage} - {old(outputBuffer.storage)})
      ensures Value() == RunQueued(old(Value()), n)
    {
      var functor := queued[0];
      queued := queued[1..];
      match functor {
        case LaterSend(message) => SendInLoop(message, n);
        case LaterHalfClose => ShutdownInLoop();
      }
    }

    method HandleWrite(n: int)
      requires Valid() && WriteResult(n, outputBuffer.ReadableBytes())
      modifies this`writing, this`wire, this`halfCloses, outputBuffer`readerIndex, outputBuffer`writerIndex
      ensures Valid() && Value() == ConnectionOutput.HandleWrite(old(Value()), n)
      ensures |wire| == old(|wire|) + (if old(writing) && n > 0 then n else 0)
    {
      if writing {
        if n > 0 {
          wire := wire + outputBuffer.Contents()[..n];
          outputBuffer.Retrieve(n);
          if outputBuffer.ReadableBytes() == 0 {
            assert outputBuffer.Contents() == [];
            writing := false;
            if state == Disconnecting {
              ShutdownInLoop();
            }
          }
        }
      }
    }

    method HandleClose()
      requires Valid() && state in {Connected, Disconnecting}
      modifies this`state, this`reading, this`writing, this`closed
      ensures Valid() && Value() == ConnectionOutput.HandleClose(old(Value())) && !reading
    {
      state := Disconnected;
      reading, writing, closed := false, false, true;
    }

    /** One read event: `received` says that the message callback is due; end of file closes. */
    method HandleRead(got: Received) returns (received: bool)
      requires Valid() && state in {Connected, Disconnecting}
      requires got.Got? ==> |got.data| <= inputBuffer.WritableBytes() + EXTRA_SIZE
      modifies this`state, this`reading, this`writing, this`closed, inputBuffer, inputBuffer.storage
      ensures Valid() && fresh({inputBuffer.storage} - {old(inputBuffer.storage)})
      ensures received <==> got.Got? && got.data != []
      ensures inputBuffer.Contents() == old(inputBuffer.Contents()) + (if got.Got? then got.data else [])
      ensures Value() == if got == Got([]) then ConnectionOutput.HandleClose(old(Value())) else old(Value())
      ensures reading == (old(reading) && got != Got([]))
    {
      var n := inputBuffer.ReadFd(got);
      received := n > 0;
      if n == 0 {
        HandleClose();
      }
    }

    /** The last call: a connection that is still up is closed here, in any case the channel goes. */
    method ConnectionDestroyed()
      requires Valid()
      modifies this`state, this`reading, this`writing, this`closed
      ensures Valid() && Value() == if old(state) == Connected
                                    then ConnectionOutput.HandleClose(old(Value())) else old(Value())
    {
      if state == Connected {
        state := Disconnected;
        reading, writing, closed := false, false, true;
      }
    }
  }
}

# Verified model of mini-webserver

`recipes/mini-webserver` is a small reactor: an event loop with a timer queue and a task queue, connections over
growable buffers, an incremental HTTP parser and a worker pool. This project models its core in Dafny and proves
what the code is relied on for. `dafny verify dfyconfig.toml` checks everything.

Objects that the program updates in place are classes here, with the same fields and methods. Each method is proved
against a function on values, and the theorems speak about those functions and about all their runs. What several
threads share is a state machine whose steps are the program's atomic regions, interleaved in every possible way.

| file | models |
|---|---|
| `TimerRounds.dfy`, `TimerRuns.dfy`, `TimerQueue.dfy` | timers in two indexes, expiry rounds with re-entrant callbacks, arming of the timerfd |
| `LoopProtocol.dfy`, `EventLoop.dfy` | task hand-off between threads, eventfd wakeup, swap-and-run, quit |
| `Buffer.dfy` | the byte buffer: one array, two indices, growth and in-place move |
| `LineParser.dfy`, `HttpMessage.dfy`, `HttpContext.dfy` | the incremental request parser, its grammar, and its independence of how the stream is cut |
| `HttpResponse.dfy` | the response printer, read back through the parser |
| `ConnectionOutput.dfy`, `TcpConnection.dfy` | partial writes, backlog, deferred half-close |
| `LineServer.dfy`, `HttpServer.dfy`, `HttpExchange.dfy` | requests in, responses out, over whole conversations |
| `ConnectionLifecycle.dfy`, `TcpServer.dfy` | creation, removal and destruction of connections across loops |
| `PoolProtocol.dfy`, `ThreadPool.dfy` | the workers, their queue and condition, and `stop` |
| `Octets.dfy` | bytes, the library searches, decimal and big-endian numbers |

Parts that do not depend on HTTP are stated for any line protocol: `LineParser` takes the effect of a line as a
function, `LineServer` also the allowed answers. `HttpMessage.LineTurn` and `HttpServer.Http` are the instances.

Results of system calls (`write`, `readv`, `timerfd`, `epoll`, clocks) are parameters, bounded as their manual pages
say: `write` returns an error or a count up to the length, `readv` an error or bytes that fit both segments. A timer
callback is any finite list of adds and cancels; what a functor does is any finite list of calls on the loop.

Where the code does not do what its comments or assertions suggest, the model follows the code:

- `net/TimerQueue.cpp:170` asserts a comparison that is always false; the bound it means is proved.
- `net/TimerQueue.cpp:202` skips the rearming when the earliest timer is already past. The exact condition under which
  the earliest timer stays covered is proved for a round and for whole runs, and both ways to fail are shown.
- `net/TcpConnection.cpp:238-268` drops a message that arrives behind a backlog. Conservation is about the messages
  taken in; which these are is an if-and-only-if, for messages and for the server's answers.
- `net/TcpConnection.cpp:235-280` does not look at the state again when a functor of another thread's `send` or
  `shutdown` runs. So data can follow a half-close, a half-close can come twice, and a send after the close can enable
  writing on a closed connection, which a hang-up then closes again, against the assertion at line 222. Each has its
  exact condition over all runs, and a run that shows it. A `shutdown` of another thread can also store its state after
  the close, against the assertion at line 49, exactly when it tested the state before.
- `http/HttpContext.cpp:47-52` ends the headers at the first line without a colon, empty or not.
- A failed request line may leave the method set, against the assertion at `http/HttpRequest.cpp:17`.
- `http/HttpServer.cpp:43-60` handles one request for each read, so requests wait once a read holds the ends of
  two; how many are answered after any reads is proved.
- `http/HttpResponse.cpp:57` formats into 32 bytes, which cuts the length line of bodies of 10^13 bytes or more.
- `net/EventLoop.cpp:88` clears a quit requested before the start, and functors queued by the loop's own thread
  before the start do not wake the first poll.
- `base/ThreadPool.cpp:48-57` drops queued tasks on `stop`; exactly which is proved.

## Model

| member | source | states |
|---|---|---|
| `TimerRounds.HowMuchTimeFromNow` | recipes/mini-webserver/net/TimerQueue.cpp:47-57 | The `timespec` is exactly the delay with its 100-microsecond floor, normalised, and never the zero that would disarm the timerfd |
| `TimerRounds.DueIsExact` | recipes/mini-webserver/net/TimerQueue.cpp:162-172 | The leading entries taken out are exactly those with expiry at most `now`; the first one left is past `now` (the bound that line 170 means to assert) |
| `TimerRounds.CallbacksRunInOrder` | recipes/mini-webserver/net/TimerQueue.cpp:154-156 | The callbacks of a batch run one after the other in the order of the batch: those of a first part, then those of the rest |
| `TimerRounds.SizesAgree` | recipes/mini-webserver/net/TimerQueue.cpp:211-239 | The index by identity has as many elements as the index by expiry |
| `TimerRounds.ExpireAgrees` | recipes/mini-webserver/net/TimerQueue.cpp:162-186 | Taking the due entries out keeps both indexes on the same timers, sorted and without duplicates, and shares no timer with the batch |
| `TimerRounds.ApplyAllElements` | recipes/mini-webserver/net/TimerQueue.cpp:110-144 | After any adds and cancels by callbacks the queue holds exactly what it held or was given, less what was cancelled since |
| `TimerRounds.ApplyAllCanceling` | recipes/mini-webserver/net/TimerQueue.cpp:133-141 | A timer of the running batch is recorded as cancelled if and only if some callback of the batch cancels it |
| `TimerRounds.ReinsertedElements` | recipes/mini-webserver/net/TimerQueue.cpp:188-196 | `reset` puts back exactly the timers of the batch with an interval above 0 that were not cancelled, each at `now + interval`, and both indexes agree |
| `TimerRounds.RoundIsExact` | recipes/mini-webserver/net/TimerQueue.cpp:146-207 | One expiry round, for any callback scripts: an entry is in the queue afterwards if and only if it was not due and not cancelled, or was added and not cancelled later, or is a due timer with an interval above 0, not cancelled, at `now + interval`; the indexes agree again |
| `TimerRuns.DueTimerReturnsIff` | recipes/mini-webserver/net/TimerQueue.cpp:188-196 | Of the timers that were due, exactly those with an interval above 0 that no callback cancelled are queued after the round, at `now + interval` and nowhere else; one-shot timers are gone |
| `TimerRuns.AddArmsIff` | recipes/mini-webserver/net/TimerQueue.cpp:110-117 | An add arms the timerfd if and only if its expiry is before that of every timer held, and then for that expiry or 100 microseconds on |
| `TimerRuns.ResetArmsIff` | recipes/mini-webserver/net/TimerQueue.cpp:198-206 | `reset` arms it if and only if the earliest expiry is not past, and then for that expiry or 100 microseconds on |
| `TimerRuns.RoundLog` | recipes/mini-webserver/net/TimerQueue.cpp:146-157 | A round runs each due timer exactly once, in (expiry, address) order, whatever the callbacks cancel |
| `TimerRuns.RunsAreDueAndSpaced` | recipes/mini-webserver/net/TimerQueue.cpp:119-196 | Over every run: no callback before its expiry; two runs of one timer only if its interval is above 0, and then at least one interval apart; the indexes agree after every event |
| `TimerRuns.CancelledIsGone` | recipes/mini-webserver/net/TimerQueue.cpp:119-144 | A cancel of a timer added before takes it out of both indexes by the end of the event, also when it cancels itself or a timer of its own batch |
| `TimerRuns.CancellationIsFinal` | recipes/mini-webserver/net/TimerQueue.cpp:119-160 | A timer cancelled in one event of a run never runs in any later event |
| `TimerRuns.EarliestIsCovered` | recipes/mini-webserver/net/TimerQueue.cpp:110-117 | If every `reset` finds the earliest timer not yet past, then after every event of every run the timerfd is armed no later than the earliest expiry, up to the 100-microsecond floor |
| `TimerRuns.RoundCoversIff` | recipes/mini-webserver/net/TimerQueue.cpp:146-207 | A round leaves the earliest timer covered if and only if none is left, or it is not past when `reset` asks, or the last add by a callback that armed the timerfd did so early enough, or an unread timerfd that no callback touched was armed early enough |
| `TimerRuns.AlwaysCoveredIff` | recipes/mini-webserver/net/TimerQueue.cpp:110-207 | Over every run: the earliest timer is covered after every event if and only if every round meets that condition |
| `TimerRuns.RoundLeavesDisarmedIff` | recipes/mini-webserver/net/TimerQueue.cpp:146-207 | The part of the failures that leaves the timerfd disarmed: the earliest timer is missing or past when `reset` asks, and no callback added a timer that was earliest in its turn |
| `TimerRuns.LateResetMisarms` | recipes/mini-webserver/net/TimerQueue.cpp:198-205 | The other part: a callback arms the timerfd for its own later timer, and the periodic timer of the round, past at `reset`, waits for that one |
| `TimerRuns.LateResetStalls` | recipes/mini-webserver/net/TimerQueue.cpp:198-205 | Whenever the next expiry of the only timer is past at `reset`, that timer stays queued with the timerfd disarmed, and no further round can happen without a new add |
| `TimerQueue.Timer.Restart` | recipes/mini-webserver/net/Timer.cpp:48-56 | A timer with an interval above 0 moves to `now + interval`, any other to the invalid time |
| `TimerQueue.TimerQueue.Insert` | recipes/mini-webserver/net/TimerQueue.cpp:209-242 | Both set insertions succeed, sizes stay equal, and the result says whether the timer is now the earliest |
| `TimerQueue.InsertFacts` | recipes/mini-webserver/net/TimerQueue.cpp:220-239 | Why the assertions of `insert` hold for a timer held in neither index |
| `TimerQueue.TimerQueue.AddTimer` | recipes/mini-webserver/net/TimerQueue.cpp:93-117 | A new timer object goes into both indexes; the timerfd is rearmed exactly when it is the earliest |
| `TimerQueue.TimerQueue.CancelInLoop` | recipes/mini-webserver/net/TimerQueue.cpp:119-144 | The erase by current expiry finds exactly the cancelled timer; within a batch the cancel is recorded instead |
| `TimerQueue.TimerQueue.GetExpired` | recipes/mini-webserver/net/TimerQueue.cpp:162-186 | Splits both indexes at `now`; every erase finds its timer |
| `TimerQueue.ExpiredFacts` | recipes/mini-webserver/net/TimerQueue.cpp:162-186 | Why the assertions of `getExpired` hold: the bound, and one erased element for each expired timer |
| `TimerQueue.TimerQueue.RunCallback` | recipes/mini-webserver/net/TimerQueue.cpp:154-156 | A callback that adds and cancels any number of timers while the batch runs acts on the queue as its operations say, and leaves the batch tracked |
| `TimerQueue.TimerQueue.Reset` | recipes/mini-webserver/net/TimerQueue.cpp:188-207 | Timers of the batch with an interval above 0 that were not cancelled are restarted and reinserted, and the timerfd is rearmed if the earliest timer is not past: `ReinsertedElements` and `ResetArmsIff` say what that is |
| `TimerQueue.TimerQueue.HandleRead` | recipes/mini-webserver/net/TimerQueue.cpp:146-160 | The whole in-place round with re-entrant callbacks computes the queue of `RoundIsExact`, for every legal script |
| `LoopProtocol.FunctorsAreConserved` | recipes/mini-webserver/net/EventLoop.cpp:129-150 | In every interleaving, functors run, rest of the swapped batch and pending functors are together all functors queued, in lock order |
| `LoopProtocol.NoLostWakeup` | recipes/mini-webserver/net/EventLoop.cpp:82-117 | In every interleaving: while the loop thread is at poll with functors pending or quit requested since the start, the eventfd is readable or another thread stands between its push (or its quit) and its wakeup |
| `LoopProtocol.SafeToStartIff` | recipes/mini-webserver/net/EventLoop.cpp:82-103 | No run from an idle loop ever sleeps on work if and only if nothing is pending, or the eventfd is readable, or a wakeup is on its way, when `loop` starts |
| `LoopProtocol.EarlyPushIsSleptOn` | recipes/mini-webserver/net/EventLoop.cpp:129-150 | The unsafe start is reachable: a functor queued by the loop thread itself before `loop` is slept on |
| `LoopProtocol.SwappedBatchRuns` | recipes/mini-webserver/net/EventLoop.cpp:217-232 | In every interleaving, every functor pending at a swap has run by the end of its batch |
| `LoopProtocol.QuitIsFinal` | recipes/mini-webserver/net/EventLoop.cpp:92-117 | Once quit is requested the loop thread enters no further poll, from wherever it stands |
| `LoopProtocol.StartForgetsQuit` | recipes/mini-webserver/net/EventLoop.cpp:87-88 | A quit requested before `loop` is cleared by it: the loop goes to poll |
| `LoopProtocol.QuitIff` | recipes/mini-webserver/net/EventLoop.cpp:82-117 | Over every interleaving: the loop is to quit if and only if some thread called `quit` and no `loop` started since, or it was to quit before and none started |
| `LoopProtocol.ReadableIff` | recipes/mini-webserver/net/EventLoop.cpp:209-215 | Over every interleaving: the eventfd is readable if and only if it was written to and not read since, so one wakeup never wakes the loop twice |
| `LoopProtocol.ReportedIsRead` | recipes/mini-webserver/net/EventLoop.cpp:92-99 | Over every interleaving: after a poll that reports the eventfd, the loop thread reads it before it takes the pending functors |
| `EventLoop.EventLoop.QueueInLoop` | recipes/mini-webserver/net/EventLoop.cpp:129-150 | A push by any caller adds the functor last, and leaves the eventfd readable whenever the functor will miss the swap of this pass |
| `EventLoop.EventLoop.RunInLoop` | recipes/mini-webserver/net/EventLoop.cpp:119-127 | Called at once on the loop thread, queued with a wakeup from any other |
| `EventLoop.EventLoop.RequestQuit` | recipes/mini-webserver/net/EventLoop.cpp:105-117 | Quit is set, with a wakeup exactly for callers other than the loop thread |
| `EventLoop.EventLoop.HandleEvents` | recipes/mini-webserver/net/EventLoop.cpp:93-97 | The poll and the handlers: nothing is run from the queue, what is queued meanwhile waits in order, and quit is set if and only if some call made meanwhile asks for it |
| `EventLoop.EventLoop.DoPendingFunctors` | recipes/mini-webserver/net/EventLoop.cpp:217-232 | Runs exactly what was pending at the swap, in order; what is queued while it runs, by functors or other threads, stays pending in order with the eventfd readable; the loop is to quit afterwards if and only if it was before or some call made meanwhile asks for it |
| `EventLoop.BatchSnoc` | recipes/mini-webserver/net/EventLoop.cpp:227-229 | One functor of the swapped vector: what has run, what is left, what waits, and whether to quit, follow from the calls made while it runs |
| `EventLoop.HistorySnoc` | recipes/mini-webserver/net/EventLoop.cpp:92-99 | One more pass of a loop in which none has asked to quit: all functors run so far, in order, those left pending, and whether to quit |
| `EventLoop.EventLoop.Iterate` | recipes/mini-webserver/net/EventLoop.cpp:93-98 | One pass runs everything queued up to its swap, leaves the rest pending in order with the eventfd readable, and ends with quit set if and only if some call made in the pass asks for it |
| `EventLoop.EventLoop.Loop` | recipes/mini-webserver/net/EventLoop.cpp:82-103 | The loop makes all the passes it is given, up to the first in which some call asks to quit, that one included: it ends early only for such a call; what the passes run and what they leave pending is exact, over any number of passes |
| `Octets.FindUnique` | recipes/mini-webserver/http/HttpContext.cpp:46 | The search for a character gives its first position, or the end, and nothing else |
| `Octets.SearchUnique` | recipes/mini-webserver/net/Buffer.cpp:53-57 | The search for CRLF gives the first one, or the end, and nothing else |
| `LineParser.FirstLine` | recipes/mini-webserver/http/HttpContext.cpp:20-29 | Every line that is eaten takes at least its two bytes of CRLF from the input, so parsing ends |
| `LineParser.EatResumes` | recipes/mini-webserver/http/HttpContext.cpp:13-65 | For any effect of a line: parsing `a` and then the leftover with `b` is parsing `a + b`, wherever the cut falls |
| `LineParser.FeedIsEat` | recipes/mini-webserver/http/HttpContext.cpp:13-65 | Any number of reads, cut anywhere, end like one read of all the bytes |
| `LineParser.StreamIsServed` | recipes/mini-webserver/http/HttpServer.cpp:43-60 | For any line protocol: messages sent one after the other and cut into reads in any way, also with ends and beginnings in one read, are done in order, each as if it had come in one piece; after any reads exactly as many as the law says, one for each read while some have arrived |
| `LineParser.KeepsUpIff` | recipes/mini-webserver/http/HttpServer.cpp:43-60 | All messages that have arrived are done after every read if and only if no read holds the ends of two; more than have arrived are never done |
| `LineParser.MessageWaitsIff` | recipes/mini-webserver/http/HttpServer.cpp:43-60 | After any reads, the input holds a whole message unread if and only if more have arrived than were done |
| `HttpMessage.TrimUnwraps` | recipes/mini-webserver/http/HttpRequest.cpp:90-103 | Trimming removes any outer white space around a trimmed core, and nothing of the core |
| `HttpMessage.TrimSplits` | recipes/mini-webserver/http/HttpRequest.cpp:90-103 | What trimming removes is white space, and what it leaves neither starts nor ends with it |
| `HttpMessage.HeaderLineReads` | recipes/mini-webserver/http/HttpContext.cpp:40-58 | A header line of any shape: the text before its first colon names the field, white space around the value is dropped, further colons belong to the value |
| `HttpMessage.ParseStates` | recipes/mini-webserver/http/HttpContext.cpp:13-65 | An unfinished parse is in a state it can be re-entered in and has used up every complete line; only a request line can fail, and then nothing is consumed; it is complete exactly in `kGotAll` |
| `HttpMessage.Resume` | recipes/mini-webserver/http/HttpContext.cpp:13-65 | Parsing `a ++ b` at once equals parsing `a`, then leftover `++ b`: same outcome, request and leftover, also when CR and LF are separated |
| `HttpMessage.FragmentationIsInvisible` | recipes/mini-webserver/http/HttpContext.cpp:13-65 | However the stream is cut into reads, the outcome is that of one read, receive time aside |
| `HttpMessage.LastHeaderWins` | recipes/mini-webserver/http/HttpRequest.cpp:102 | Of several lines with one field name the last gives the value |
| `HttpMessage.UntouchedField` | recipes/mini-webserver/http/HttpRequest.cpp:102 | A field that no line names keeps its value, or stays missing |
| `HttpMessage.AcceptedLineIff` | recipes/mini-webserver/http/HttpContext.cpp:85-109 | A request line is accepted if and only if it is GET, POST, HEAD, PUT or DELETE, a space, a target without spaces, a space and HTTP/1.1 (narrower than section 3.1.1 of RFC 7230 in methods and version, looser in the target) |
| `HttpMessage.AcceptedLineRebuilds` | recipes/mini-webserver/http/HttpContext.cpp:85-109 | Method, path and query of an accepted line give back the line exactly; the path holds no question mark, and the query is empty or begins with one, so both are determined |
| `HttpMessage.SplitIsUnique` | recipes/mini-webserver/http/HttpContext.cpp:94-100 | There is only one way to cut a target before its first question mark, so the laws on path and query leave no other reading |
| `HttpMessage.AnyLineIsRead` | recipes/mini-webserver/http/HttpContext.cpp:85-109 | For every line, from an empty query: success exactly on the grammar, and then method, path and query rebuild the line, the path ending before the first question mark |
| `HttpMessage.VersionIsCheckedLast` | recipes/mini-webserver/http/HttpContext.cpp:85-109 | Behind a known method the target is stored as path and query whatever version follows, also when the line then fails; without a second blank, or behind an unknown method, only the method is set |
| `HttpMessage.PrintedMessageParses` | recipes/mini-webserver/http/HttpContext.cpp:13-65 | The text of every well-formed message completes, with exactly its leftover: method, target as path and query cut before the first question mark, last-wins headers, and the receive time |
| `HttpMessage.CompletedRequestIsPrinted` | recipes/mini-webserver/http/HttpContext.cpp:13-65 | Every byte string that completes a request is the text of a well-formed message |
| `HttpMessage.GrammarIff` | recipes/mini-webserver/http/HttpContext.cpp:13-65 | A fresh context completes if and only if the bytes are an accepted request line, lines with a colon, a line without one, and a rest; then path and query are the target cut before its first question mark, the headers are the last-wins fold, and the rest is left over |
| `HttpMessage.FailureIff` | recipes/mini-webserver/http/HttpContext.cpp:23-35 | A fresh context fails if and only if a first line is complete and not an accepted request line |
| `HttpMessage.FailedContextIsReadyIff` | recipes/mini-webserver/http/HttpRequest.cpp:16-17 | After a failure the parser may be entered again if and only if the bad line does not start with a known method |
| `HttpMessage.FailedContextNeedNotBeReady` | recipes/mini-webserver/http/HttpRequest.cpp:16-17 | A request line in HTTP/1.0 fails and leaves the method set, so the next call would trip the assertion |
| `HttpContext.HttpRequest.SetMethod` | recipes/mini-webserver/http/HttpRequest.cpp:16-35 | Each of the five tokens gives its own method, and success exactly for these five |
| `HttpContext.HttpRequest.AddHeader` | recipes/mini-webserver/http/HttpRequest.cpp:90-103 | The two trimming loops store the trimmed text after the colon under the text before it |
| `HttpContext.HttpRequest.Swap` | recipes/mini-webserver/http/HttpRequest.cpp:119-125 | The two requests exchange their whole values |
| `HttpContext.HttpContext.Reset` | recipes/mini-webserver/http/HttpContext.cpp:71-75 | The context is as new |
| `HttpContext.HttpContext.ProcessRequestLine` | recipes/mini-webserver/http/HttpContext.cpp:85-109 | Result and the request left behind, also when the line fails half-way; from an empty query it succeeds exactly on the grammar, and then method, path and query rebuild the line, the path ending before the first question mark |
| `HttpContext.HttpContext.TakeRequestLine` | recipes/mini-webserver/http/HttpContext.cpp:17-39 | The request-line iteration: it goes on with the same final outcome and at least two bytes less, or fails with the buffer untouched |
| `HttpContext.HttpContext.TakeHeaderLine` | recipes/mini-webserver/http/HttpContext.cpp:40-58 | The header iteration: at least two bytes less, and the same final outcome, or complete |
| `HttpContext.HttpContext.ParseRequest` | recipes/mini-webserver/http/HttpContext.cpp:13-65 | The loop over the real buffer terminates, and leaves context, result and unread bytes as `GrammarIff` and `Resume` describe, from every legal entry state |
| `NetBuffer.StorageBound` | recipes/mini-webserver/net/Buffer.cpp:157-162 | Over every run of append, retrieve, prepend and readFd the storage never exceeds max(1032, 2P + 6), P the peak of readable plus requested bytes |
| `NetBuffer.StorageBoundIsAttained` | recipes/mini-webserver/net/Buffer.cpp:280-293 | Every peak above 1025 reaches that bound, so no smaller one holds |
| `NetBuffer.EmptyIsReset` | recipes/mini-webserver/net/Buffer.cpp:80-87 | An empty buffer has its indices back at the cheap prepend, over every run |
| `NetBuffer.MixedIntegersRoundTrip` | recipes/mini-webserver/net/Buffer.cpp:143-220 | Signed integers of any mixture of widths, appended one after the other, read back in order, with the rest untouched |
| `Octets.IntRoundTrip` | recipes/mini-webserver/net/Buffer.cpp:185-206 | Big-endian conversion there and back is the identity on the signed type, negative values included |
| `Octets.BigEndian` | recipes/mini-webserver/net/Buffer.cpp:143-155 | Every byte of an encoded integer is its digit in base 256, the most significant first, as network order asks |
| `NetBuffer.Buffer.constructor` | recipes/mini-webserver/net/Buffer.cpp:14-21 | An empty buffer of 1032 bytes with 8 bytes in front |
| `NetBuffer.Buffer.FindCRLF` | recipes/mini-webserver/net/Buffer.cpp:53-57 | The first CRLF of the readable bytes, or none if there is none |
| `NetBuffer.Buffer.Retrieve` | recipes/mini-webserver/net/Buffer.cpp:80-87 | Drops a prefix of the contents |
| `NetBuffer.Buffer.RetrieveAsString` | recipes/mini-webserver/net/Buffer.cpp:116-122 | Returns a prefix of the contents and drops it |
| `NetBuffer.Buffer.MoveDown` | recipes/mini-webserver/net/Buffer.cpp:288 | The overlapping copy to a lower address, byte by byte, moves the bytes intact |
| `NetBuffer.Buffer.MakeSpace` | recipes/mini-webserver/net/Buffer.cpp:280-293 | Growth and the in-place move keep the contents; the reader index is past 8 before the move |
| `NetBuffer.Buffer.EnsureWritableBytes` | recipes/mini-webserver/net/Buffer.cpp:157-162 | Room for the request, contents unchanged |
| `NetBuffer.Buffer.Append` | recipes/mini-webserver/net/Buffer.cpp:133-137 | Concatenation at the end |
| `NetBuffer.Buffer.Prepend` | recipes/mini-webserver/net/Buffer.cpp:222-227 | Concatenation at the front, in the same storage |
| `NetBuffer.Buffer.ReadFd` | recipes/mini-webserver/net/Buffer.cpp:239-270 | Concatenation of whatever the kernel read, also when it spills into the second segment; an error changes nothing |
| `NetBuffer.Buffer.AppendInt` | recipes/mini-webserver/net/Buffer.cpp:143-155 | Appends the big-endian bytes |
| `NetBuffer.Buffer.PrependInt` | recipes/mini-webserver/net/Buffer.cpp:208-220 | Prepends the big-endian bytes |
| `NetBuffer.Buffer.ReadInt` | recipes/mini-webserver/net/Buffer.cpp:164-183 | Decodes the leading bytes and drops them |
| `HttpResponse.HttpResponse.AppendHeaders` | recipes/mini-webserver/http/HttpResponse.cpp:62-67 | The loop over the header map appends one line for each entry, each exactly once |
| `HttpResponse.HttpResponse.AppendToBuffer` | recipes/mini-webserver/http/HttpResponse.cpp:43-71 | Status line, generated fields, header map in some order, blank line and body, appended to what the buffer held |
| `HttpResponse.ResponseParses` | recipes/mini-webserver/http/HttpResponse.cpp:43-71 | The bytes after the status line, read back by the request parser, leave exactly the body and give the generated fields overridden by the map, for colon-free keys and trimmed values; also when the length line was cut |
| `HttpResponse.ResponseRoundTrip` | recipes/mini-webserver/http/HttpResponse.cpp:43-71 | For bodies below 10^13 bytes the fields read back are Connection and the decimal Content-Length, overridden by the map |
| `HttpResponse.ResponseRoundTripIff` | recipes/mini-webserver/http/HttpResponse.cpp:57-59 | The round trip is faithful if and only if the response closes, or the body is below 10^13 bytes, or the map overrides both generated fields |
| `HttpResponse.CutLine` | recipes/mini-webserver/http/HttpResponse.cpp:57-59 | A length line cut by the 32-byte buffer swallows the Connection line behind it |
| `HttpResponse.StatusLineReads` | recipes/mini-webserver/http/HttpResponse.cpp:44-50 | The first line of a response reads back as the version, the status code in decimal and the message, with one blank between them, and everything else follows it; any `int` fits the 32-byte buffer |
| `HttpServer.BadRequestReads` | recipes/mini-webserver/http/HttpServer.cpp:46-50 | The refusal reads as version, code 400 and `Bad Request`, and one empty line that ends it |
| `HttpServer.UnsetCallbackAnswers` | recipes/mini-webserver/http/HttpServer.cpp:62-74 | Without a callback the response has code 0, no message and no body, and closes if and only if the request asked for it |
| `Octets.DecimalRoundTrip` | recipes/mini-webserver/net/TcpServer.cpp:65-68 | Decimal formatting loses nothing |
| `ConnectionOutput.OutputIsConserved` | recipes/mini-webserver/net/TcpConnection.cpp:183-269 | Over every run with partial and failed writes and calls from any thread: bytes written and then the backlog are exactly the messages taken in, in order; until the close, write interest is on if and only if something waits; `WireIsWhatWasWritten` says how many are written |
| `ConnectionOutput.SendWrites` | recipes/mini-webserver/net/TcpConnection.cpp:235-269 | A first write of any message puts exactly as many bytes on the wire as the kernel says, none on an error; the rest waits, with write interest exactly if there is one |
| `ConnectionOutput.HandleWriteWrites` | recipes/mini-webserver/net/TcpConnection.cpp:183-216 | A write event moves exactly as many bytes from the backlog to the wire as the kernel says |
| `ConnectionOutput.WireIsWhatWasWritten` | recipes/mini-webserver/net/TcpConnection.cpp:183-269 | Over every run: the length of the wire is the sum of the positive results of all the writes made |
| `ConnectionOutput.FunctorsAreFifo` | recipes/mini-webserver/net/TcpConnection.cpp:52-75 | Over every run: the queued sends and half-closes run so far, and then those that wait, are all that were queued, in that order |
| `ConnectionOutput.SendIsTakenIff` | recipes/mini-webserver/net/TcpConnection.cpp:235-269 | While connected, a message is taken in if and only if nothing waits |
| `ConnectionOutput.SecondMessageIsDropped` | recipes/mini-webserver/net/TcpConnection.cpp:235-269 | A message sent right after any partial write never reaches the peer |
| `ConnectionOutput.HalfCloseWaitsForData` | recipes/mini-webserver/net/TcpConnection.cpp:52-75 | Over every on-loop run the half-close happens at most once, after everything taken in was written, and no byte follows it; while shutting down it has happened exactly if nothing waits |
| `ConnectionOutput.HalfCloseKeepsOrderIff` | recipes/mini-webserver/net/TcpConnection.cpp:52-75 | Over every run, calls from any thread included: everything taken in lies before the first half-close if and only if no queued send is taken in after a half-close and no queued half-close runs over a backlog that the close left; then every half-close stands at the end of the data |
| `ConnectionOutput.HalfCloseOnceIff` | recipes/mini-webserver/net/TcpConnection.cpp:183-216 | Over every run, calls from any thread included: the half-close happens at most once if and only if no queued one runs after one, and no write event empties the backlog of a connection shutting down after one |
| `ConnectionOutput.HalfCloseNeedsShutdown` | recipes/mini-webserver/net/TcpConnection.cpp:70-75 | No half-close without a `shutdown`, by any thread |
| `ConnectionOutput.DeferredSendFollowsHalfClose` | recipes/mini-webserver/net/TcpConnection.cpp:52-62 | A send from another thread, queued before the shutdown, whose write first takes nothing: its bytes follow the half-close, and a second half-close follows them |
| `ConnectionOutput.QueuedHalfCloseRepeats` | recipes/mini-webserver/net/TcpConnection.cpp:70-75 | A shutdown from another thread whose functor runs after `handleWrite` has half-closed does it again |
| `ConnectionOutput.QueuedHalfCloseSkipsBacklog` | recipes/mini-webserver/net/TcpConnection.cpp:275-280 | One whose functor runs after the close half-closes with bytes still waiting |
| `TcpConnection.TcpConnection.constructor` | recipes/mini-webserver/net/TcpConnection.cpp:16-41 | A connection starts in `kConnecting` with empty buffers, no interest and a fresh context |
| `TcpConnection.TcpConnection.ConnectionEstablished` | recipes/mini-webserver/net/TcpConnection.cpp:118-127 | From `kConnecting` to `kConnected`, with read interest |
| `TcpConnection.TcpConnection.SendInLoop` | recipes/mini-webserver/net/TcpConnection.cpp:235-269 | Over the real output buffer: exactly the bytes the kernel takes reach the wire, the rest is queued, and a message behind a backlog is dropped |
| `TcpConnection.TcpConnection.Send` | recipes/mini-webserver/net/TcpConnection.cpp:52-62 | Nothing unless connected; on the loop thread sent now as `SendWrites` says, from another thread queued as a functor |
| `TcpConnection.TcpConnection.Shutdown` | recipes/mini-webserver/net/TcpConnection.cpp:70-75 | From `kConnected` only: half-close now, or once the backlog is out; from another thread the state changes at once and the half-close is queued |
| `TcpConnection.TcpConnection.RunFunctor` | recipes/mini-webserver/net/TcpConnection.cpp:235-280 | A queued send or half-close runs without looking at the state again |
| `TcpConnection.TcpConnection.HandleWrite` | recipes/mini-webserver/net/TcpConnection.cpp:183-216 | Over the real output buffer: exactly the bytes the kernel takes leave the backlog for the wire; the last byte ends write interest and lets a waiting half-close through |
| `TcpConnection.TcpConnection.HandleClose` | recipes/mini-webserver/net/TcpConnection.cpp:218-227 | Disconnected, no interest left |
| `TcpConnection.TcpConnection.HandleRead` | recipes/mini-webserver/net/TcpConnection.cpp:168-181 | Bytes go to the input buffer and call for the message callback, end of file closes, an error changes nothing |
| `TcpConnection.TcpConnection.ConnectionDestroyed` | recipes/mini-webserver/net/TcpConnection.cpp:129-138 | Closes a connection that is still connected, and only such a one |
| `LineServer.OutputIsARun` | recipes/mini-webserver/http/HttpServer.cpp:43-88 | Whatever a server does on a connection from its loop is an on-loop run of the output, so conservation and the order of the half-close hold of it |
| `LineServer.MessagesAreAnswered` | recipes/mini-webserver/http/HttpServer.cpp:43-60 | Over every run: one response for each completed message, in order, each an allowed answer to it, and the refusal, last, for one that fails |
| `LineServer.RunIsSession` | recipes/mini-webserver/http/HttpServer.cpp:43-60 | Writes, and the hang-up, do not disturb the parser: its state is that of the reads alone |
| `LineServer.KeptIsFirstPart` | recipes/mini-webserver/http/HttpServer.cpp:75-87 | The responses up to the first that closes: all of them, or a first part whose last one alone closes |
| `LineServer.ResponsesReachThePeerIff` | recipes/mini-webserver/http/HttpServer.cpp:75-87 | Over every run: wire and backlog are exactly the responses, in order, up to the first that closes, if and only if each of these was sent with nothing waiting |
| `LineServer.HalfCloseFollowsResponses` | recipes/mini-webserver/http/HttpServer.cpp:75-87 | Then the half-close comes once all of them are out, if and only if one closes; a hang-up may forestall it |
| `LineServer.StaysOpenIff` | recipes/mini-webserver/http/HttpServer.cpp:43-88 | Over every run: the connection stays open if and only if no response closes and the peer does not hang up; a message that fails is refused in the last response, and that one closes |
| `HttpServer.Respond` | recipes/mini-webserver/http/HttpServer.cpp:62-74 | The printed answer of the callback, closing exactly when the response says so |
| `HttpServer.OnRequest` | recipes/mini-webserver/http/HttpServer.cpp:62-88 | The answer is sent, and the connection half-closed if the response closes |
| `HttpServer.OnMessage` | recipes/mini-webserver/http/HttpServer.cpp:43-60 | One message event on the real connection: parse, then refuse, answer and reset, or wait, as LineServer describes |
| `HttpExchange.ReentryIsLegal` | recipes/mini-webserver/http/HttpServer.cpp:43-60 | Until the first failure, over every run, the parser is re-entered only in a state its loop handles, with no method set before a request line |
| `HttpExchange.MessageEventIsAStep` | recipes/mini-webserver/http/HttpServer.cpp:43-60 | What `onMessage` makes of a real connection after a read is the next state of the run |
| `HttpExchange.RequestsAreServed` | recipes/mini-webserver/http/HttpServer.cpp:43-60 | Requests sent one after the other, cut into reads in any way: exactly as many as the law of reads and arrivals says are done, in order, each with the request its text means |
| `HttpExchange.RequestsKeepUpIff` | recipes/mini-webserver/http/HttpServer.cpp:43-60 | After every read all requests that have arrived are done, if and only if no read holds the ends of two requests |
| `HttpExchange.RequestWaitsIff` | recipes/mini-webserver/http/HttpServer.cpp:43-60 | After any reads, a whole request waits unread if and only if more have arrived than were done |
| `HttpExchange.LeftoverWaitsIff` | recipes/mini-webserver/http/HttpServer.cpp:43-60 | For any session, over malformed input too: a line waits only in what a completed request left over |
| `HttpExchange.ConversationIsAnswered` | recipes/mini-webserver/http/HttpServer.cpp:43-88 | End to end, for any callback: requests sent one after the other and cut into reads in any way, over any run of reads, writes and the hang-up, are answered in order, each by the callback for what it means, all that have arrived if no read holds the ends of two; wire and backlog are these answers up to the first that closes if and only if each was sent with the earlier ones out; then the half-close comes last |
| `HttpExchange.CloseIsAskedIff` | recipes/mini-webserver/http/HttpServer.cpp:62-88 | Under any callback that leaves the closing decision alone, the answer to a message closes if and only if its last header line named `Connection` has the value `close` |
| `HttpExchange.AnswerIsLost` | recipes/mini-webserver/net/TcpConnection.cpp:235-269 | For any callback and any two requests: when the kernel does not take all of the first answer, the second answer is lost whole |
| `HttpExchange.OneAnswerPerRead` | recipes/mini-webserver/http/HttpServer.cpp:43-60 | Over any reads, no more requests are answered than reads are made |
| `HttpExchange.PipelinedRequestWaits` | recipes/mini-webserver/http/HttpServer.cpp:43-60 | Any two requests that arrive in one read: the second one waits, complete |
| `ConnectionLifecycle.NamesDiffer` | recipes/mini-webserver/net/TcpServer.cpp:65-68 | No two connections of a server have the same name |
| `ConnectionLifecycle.StepIsSoundIff` | recipes/mini-webserver/net/TcpConnection.cpp:218-227 | In every state that keeps the invariant, a step meets every assertion if and only if it is not a dispatch that hangs up and then reads the end, nor one with a hang-up without data or an end of the stream on a connection that is closed and was brought back by a late send; erase, establishing, destroying and new names are always sound |
| `ConnectionLifecycle.DispatchClosesIff` | recipes/mini-webserver/net/Channel.cpp:138-180 | A sound dispatch on an open connection leaves it open, and the whole server as it was, if and only if it brings no hang-up without data and no read that finds the end of the stream; otherwise the connection is disconnected, unwatched, and its removal is done on the base loop or queued there |
| `ConnectionLifecycle.ShutdownStopsSends` | recipes/mini-webserver/net/TcpConnection.cpp:52-75 | After `shutdown` no `send` of the loop's thread does anything |
| `ConnectionLifecycle.CompleteFlush` | recipes/mini-webserver/net/TcpConnection.cpp:183-216 | A write event that empties the backlog ends write interest; the connection stays watched if and only if it is open, so a closed one that a late send brought back is closed for good |
| `ConnectionLifecycle.AcceptNames` | recipes/mini-webserver/net/TcpServer.cpp:63-93 | The map gains exactly the new connection, under the server's name, `#` and the count of connections so far |
| `ConnectionLifecycle.SafeIff` | recipes/mini-webserver/net/TcpConnection.cpp:218-227 | No tame step can fail an assertion next if and only if no closed connection is polled |
| `ConnectionLifecycle.AlwaysSafeIff` | recipes/mini-webserver/net/TcpConnection.cpp:235-269 | Over every run: at no point can an assertion fail next, if and only if no send queued by another thread has found its connection closed with nothing waiting and was written incompletely |
| `ConnectionLifecycle.LateSendReopens` | recipes/mini-webserver/net/TcpConnection.cpp:52-62 | From any open connection with nothing waiting and an idle loop: a send from another thread, the end of the stream and the incomplete write lead to a state where a hang-up closes it a second time |
| `ConnectionLifecycle.RegistryErases` | recipes/mini-webserver/net/TcpServer.cpp:106-109 | The erase removes exactly one entry, and no other connection |
| `ConnectionLifecycle.SettleKeeps` | recipes/mini-webserver/net/TcpConnection.cpp:118-138 | Establishing a new connection and destroying an erased one keep state, interest, map and queues in step |
| `ConnectionLifecycle.NextKeeps` | recipes/mini-webserver/net/TcpServer.cpp:63-115 | Every step that fails no assertion, on any loop, queued sends included, keeps: each due functor queued exactly once and no other, the map holding exactly the connections not yet erased |
| `ConnectionLifecycle.LivesAreOrdered` | recipes/mini-webserver/net/TcpServer.cpp:63-115 | In every run in which no assertion has failed, over any number of loops, with sends and shutdowns from any thread: established, closed, erased, destroyed, each at most once and in this order; read interest exactly between the first two; in the map exactly until erased; disconnected only after a close |
| `ConnectionLifecycle.ClosedAreDisconnectedIff` | recipes/mini-webserver/net/TcpConnection.cpp:43-50 | Over every such run: every closed connection is in `kDisconnected`, as its destructor asserts, if and only if no `shutdown` of another thread tested the state before the close and stored it after |
| `ConnectionLifecycle.DrainedIsSettled` | recipes/mini-webserver/net/TcpServer.cpp:95-115 | When no functor is queued, a connection is either open and in the map, or closed, erased and destroyed |
| `TcpServer.TcpServer.NewConnection` | recipes/mini-webserver/net/TcpServer.cpp:63-93 | A new entry under a new name, established now on the base loop or by a functor on another |
| `TcpServer.TcpServer.RemoveConnection` | recipes/mini-webserver/net/TcpServer.cpp:95-100 | On the base loop removed at once, from another loop by a functor on the base loop |
| `TcpServer.TcpServer.RemoveConnectionInLoop` | recipes/mini-webserver/net/TcpServer.cpp:102-115 | One entry erased (the assertion holds), and the destruction queued on the connection's loop |
| `TcpServer.TcpServer.HandleClose` | recipes/mini-webserver/net/TcpConnection.cpp:218-227 | Closes exactly if its assertion holds, and says whether it does |
| `TcpServer.TcpServer.HandleEvent` | recipes/mini-webserver/net/Channel.cpp:138-180 | Any dispatch of a polled channel, tame or not: says whether all assertions on its way hold, and the new state either way; without a hang-up and without an end of the stream nothing changes, otherwise the connection is closed afterwards |
| `TcpServer.TcpServer.Send` | recipes/mini-webserver/net/TcpConnection.cpp:52-62 | The state is tested by the call; from another thread the functor is queued |
| `TcpServer.TcpServer.SendInLoop` | recipes/mini-webserver/net/TcpConnection.cpp:235-269 | The life-cycle side of a send: an incomplete write enables writing, in any state |
| `TcpServer.TcpServer.RunNext` | recipes/mini-webserver/net/TcpServer.cpp:90-92 | A loop runs the functor at the head of its queue; a removal takes exactly one entry out of the map |
| `PoolProtocol.NoStrandedTask` | recipes/mini-webserver/base/ThreadPool.cpp:59-103 | In every interleaving, spurious wakeups included: while the pool runs and a worker is blocked, at least as many workers are woken as tasks queued; after `stop` nobody is blocked; taken tasks and queue are all tasks, in order |
| `PoolProtocol.RestingPoolIsDrained` | recipes/mini-webserver/base/ThreadPool.cpp:70-103 | A running pool in which no worker can move has an empty queue |
| `PoolProtocol.AtMostOneMoreEach` | recipes/mini-webserver/base/ThreadPool.cpp:48-57 | After `stop` every worker starts at most one more task, and is then on its way out |
| `PoolProtocol.StoppedPoolWindsDown` | recipes/mini-webserver/base/ThreadPool.cpp:48-57 | After `stop` the workers make at most a bounded number of further steps, whatever is submitted |
| `PoolProtocol.StoppedPoolMovesOrIsDone` | recipes/mini-webserver/base/ThreadPool.cpp:56 | After `stop` some worker can move if and only if not all have exited, so with the bound every join returns |
| `PoolProtocol.StopTakesAllIff` | recipes/mini-webserver/base/ThreadPool.cpp:48-103 | Whatever is submitted meanwhile: once all workers have exited, every task submitted before `stop` was taken if and only if there were no more of them than workers past the test of `running_` |
| `PoolProtocol.StopDropsExactly` | recipes/mini-webserver/base/ThreadPool.cpp:48-103 | With nothing submitted meanwhile: each of those workers has taken one task, oldest first, as far as they go, and the rest is dropped |
| `PoolProtocol.StopDropsTheRest` | recipes/mini-webserver/base/ThreadPool.cpp:48-103 | Also with tasks submitted meanwhile, no more are taken after `stop` than there are such workers |
| `ThreadPool.ThreadPool.constructor` | recipes/mini-webserver/base/ThreadPool.cpp:31-46 | All threads start at the test of `running_`, with nothing queued |
| `ThreadPool.ThreadPool.Run` | recipes/mini-webserver/base/ThreadPool.cpp:59-68 | Without threads the caller runs it; otherwise it is queued last and one waiting worker, if any, is woken |
| `ThreadPool.ThreadPool.Stop` | recipes/mini-webserver/base/ThreadPool.cpp:48-54 | The locked part: no longer running, nobody left waiting, the queue as it was |
| `ThreadPool.ThreadPool.Take` | recipes/mini-webserver/base/ThreadPool.cpp:89-103 | Gives the oldest task exactly if there is one, and waits exactly if there is none and the pool runs |

## Left out

- System calls and their plumbing (`Socket`, `Acceptor`, `InternetAddress`, `main.cpp`): only their results appear, as parameters.
- `Epoll` and `Channel`: only an interest mask and one dispatch. It is assumed that a channel without interest gets no event. `Channel::isNoneEvent` tests `revents_` where `Epoll` means "no interest"; the intended meaning is used, and the assertion in `Channel::remove` is not modelled.
- ConnectionLifecycle.AlwaysSafeIff: about tame dispatches; any other one on an open connection fails the assertion of `handleClose`, as `StepIsSoundIff` says.
- Functors that outlive their connection object are not followed beyond its life cycle.
- TcpConnection.TcpConnection.Shutdown: tests and stores the state in one call; a store that comes after a close is a step of `ConnectionOutput` (`FinishElsewhere`) and of `ConnectionLifecycle` (`ShutdownElsewhere`).
- `Socket::shutdownWrite` passes `SHUT_RD`; the call is an abstract half-close of the write side, as its declaration documents.
- The event loop, the worker pool and the connections' hand-over between loops: a region under a mutex is one step, so races of the C++ memory model on the flags read without a lock are not covered.
- EventLoop.EventLoop.QueueInLoop: other threads' calls are whole calls in the class; the interleavings that cut them between push and wakeup are in `LoopProtocol`.
- ThreadPool.ThreadPool.Take: one region under the mutex; the wait inside its loop, and the loop of `runInThread`, are steps of `PoolProtocol`. Null tasks and exceptions thrown by tasks are left out.
- `timers_` as a `std::set` is a sorted sequence, and shared pointers are a map from a timer's unchanging identity to its object, so reference counts are not covered. The creation number of a timer is chosen by the caller, distinct timers alive at the same time having distinct addresses.
- `TimerQueue::cancel` from another thread can find its weak pointer expired in `cancelInLoop`; cancels run on the loop thread here.
- 64-bit time and `int` connection numbers are unbounded integers: overflow is left out.
- HttpResponse.HttpResponse.AppendToBuffer: the order in which the header map is walked is left open, so every theorem holds for any order.
- HttpContext.HttpContext.ParseRequest: entry in `kExpectBody` or `kGotAll` is excluded, since the loop does not end there.
- HttpContext.HttpRequest.SetMethod: requires the unset method that the source asserts.
- ConnectionOutput.HalfCloseWaitsForData: for calls on the loop's own thread; with calls from other threads, `HalfCloseKeepsOrderIff` and `HalfCloseOnceIff` say when it holds.
- TimerRuns.EarliestIsCovered: conditional on prompt resets; `AlwaysCoveredIff` has the exact condition.
- Runs of a server contain its own calls on the connection only, all on the connection's loop.
- ThreadPool.ThreadPool.Stop: ends before the joins; that they return follows from `StoppedPoolWindsDown` and `StoppedPoolMovesOrIsDone`.
- Runs of the server end at the first request that fails to parse; what a second call does then is described by `FailedContextIsReadyIff`.
- Write-complete and high-water-mark callbacks, connection callbacks, `Buffer::shrink`, `Buffer::swap` and `findEOL`.
- White space is that of the C locale.
- `BoundedBlockingQueue`, `BlockingQueue`, `EventLoopThreadPool`, `Singleton`, `Atomic`, `MutexLock`, `Condition` and the `~TcpServer` path: they would only add easy members, or fail the claims their names suggest.
- The tutorial samples in the other `recipes` directories.

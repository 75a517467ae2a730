# The asynchronous read/write engine of rtac_asio, modelled and proved

This project models the C++ engine of rtac_asio in Dafny and proves properties of all its runs:

- **StreamReader**: one request at a time, guarded by `readId_`; three read primitives; timeouts that
  race with completions; a private residue (`readBuffer_`) left by `read_until` and drained first by
  every read.
- **StreamWriter**: the mirror machine.
- **StringStream**: the bounded in-memory FIFO, which closes the loop between the two.
- **UDPClientStream**: datagrams turned into a byte stream, with callbacks made inline that re-enter the
  reader.
- **AsyncService**: the run guard and the start handshake between any number of threads.
- The **blocking reads**: a client thread waiting on a condition variable beside the executor.

## How it is built

Each object the original updates in place is a class with its fields, its methods and its loops:
`StreamReader.StreamReader`, `StreamWriter.StreamWriter`, `StringStream.StringStream`,
`UdpClientStream.UdpClientStream`, `AsyncService.AsyncService`. Each method is proved against a step of a
machine on values (`ReaderModel`, `WriterModel`, `AsyncService.Step`). The reader and the writer carry a
ghost history, `books`: the bytes taken from the transport, the fate of each of them, the accepted
requests and the posted callbacks. Every public method moves `books` by exactly one step, so what is
proved of runs holds of every sequence of calls on the objects.

The environment (`ReaderSystem.Event`) may complete any outstanding operation with any chunk no longer
than what was asked, empty ones included, with or without an error, and run queued handlers in any
order. A run is any sequence of such events from a new reader.

| file | content |
|---|---|
| `Bytes`, `Fates` | delimiter-split of a byte sequence; bytes kept and bytes lost |
| `ReaderModel`, `ReaderSystem`, `ReaderInvariant`, `ReaderRuns` | the reader machine, its environment, the invariant of every step, the results on runs |
| `Effects`, `Errors` | what each event does to a reader: requests, callbacks, timers, what is asked; which errors are told |
| `IdWrap` | runs of any length: what the wrap of the read counter does |
| `Framing`, `UntilCall`, `Dump` | read-until over whole runs, one call of it, the record of received bytes |
| `ResidueRuns` | runs of a new reader that meet the look-ahead and the request of line 320 |
| `WriterModel`, `WriterRuns`, `WriterLedger`, `WriterEffects`, `WriterErrors` | the writer as a refinement of the reader machine; what is taken, write by write; its events, errors and record |
| `Loopback`, `Delivery` | writer and reader over one StringStream: order, end to end, and that everything can arrive |
| `StreamReader`, `StreamWriter`, `StringStream`, `UdpClientStream` | the classes |
| `UdpReader`, `UdpRuns` | the reader over the datagram buffer, with the inline chain; its runs |
| `AsyncService`, `Handshake`, `LostWakeup`, `ServiceCalls` | one runner, for any clients; the handshake, when `run` is left to the workers; when it is not; whole calls |
| `Blocking`, `BlockingCalls` | `read` and `read_until` with their client thread; that calls return, and with what |

## Assumptions

- A handler, and an initiation from `new_read` to the end of `do_read_some`, is one atomic step. The
  original reads `readId_` and `dst_` outside the lock at src/StreamReader.cpp:212-213.
- A completion never returns more bytes than were asked.
- `char` is signed, as on x86. Line 306 compares `char` with `char`, line 340 compares `uint8_t` with
  `char`: a delimiter from 128 up is found in the residue and never in a chunk. This is modelled: for
  such delimiters `HighDelimiterBlocks`, `NeverAtHighDelimiter` and `ChunkFreeIff` say what read-until
  does instead, and `MissedDelimiter` gives an input.
- `readCounter_` wraps at 2^32, and this is modelled. The results on runs speak of fewer than 2^32
  accepted reads, but those of `IdWrap`, which speak of runs of any length.
- A read "timed out" when its timer ended it; a read with a timeout that ends otherwise is like any other.
- A receive on the socket that fails carries no bytes.
- The results on one call of read-until (`UntilCall`) and `MessagesArrive` take `maxSize` to be at least 1:
  line 304 stores a byte before it tests the limit. The other results hold for 0 too.
- A message is not changed by its owner while it is being written.
- `waiterNotified_` and `waiterWasNotified_` start as false; the original leaves them uninitialised and
  sets them before it tests them.
- `boost::asio::streambuf` is a byte sequence, `boost::circular_buffer` a bounded one, the executor a
  map of handlers, a timer a handler that may run at any time. Canceled timers are not removed, which
  allows more runs than the original has.

## Where code and comments disagree

The code is followed, and what it does is stated exactly.

- The comment at src/StreamReader.cpp:166-176 has `do_read_some` copy until the request is full or the
  buffer empty. The loop fetches one byte ahead: when the residue is longer than the request, the byte
  after the copied ones is dropped (`DrainContract`, `Drain`; `LookAheadLoses` is a run that loses one).
  The "continuous stream of data" of include/rtac_asio/StreamReader.h:81-85 is therefore kept exactly when
  no plain read asks for less than the residue it finds, and nothing comes late after a timeout
  (`WholeStream`).
- src/StreamReader.cpp:320 asks for `requestedSize_` bytes on top of a residue already copied, so
  `async_read_until` can pass `maxSize` (`DestinationIff`, `ChunkFreeIff` give the exact conditions,
  `ReportsPastSize` a run). The class demands room for both when the residue does not satisfy the call.
- A timeout is reported without an error (src/StreamReader.cpp:162), as its own comment admits.
- Every 2^32nd read is given the idle marker as its id: it is never answered, and its handlers act on the
  idle reader (`EveryRunAccounting`, `StaleActsIff`, `WrappedReadActs`).
- A blocking read can return before its own read is over exactly when a `read_callback` of an earlier call
  is still queued and the residue does not satisfy the call at once; a call that timed out leaves one (`ReturnsOwnIff`,
  `SecondCallReturnsEarly`).
- When a client calls `run` itself at the wrong moment, `start` sleeps on until some client calls `run`
  again (`DirectRunLosesWakeup`, `ReturnsIff`).
- After a timeout a second receive can be started beside the first (src/UDPClientStream.cpp:132). As long as a
  datagram that is not taken whole comes for the only receive outstanding, the stream and its cursors stay
  right (`StepTidyIff`, `DatagramStream`). Otherwise the end cursor can pass the end of the buffer
  (`OverrunIff`, `OverrunReached`), and inside the bounds a datagram can be lost and a byte that never came
  take its place (`StreamBreaks`).

## Model

| member | source | states |
|---|---|---|
| ReaderRuns.Conservation | src/StreamReader.cpp:177-257 | For every run mixing the three reads, errors and timeouts: taken bytes, less the lost ones, are delivered ++ live read ++ residue in stream order; lost are exactly one look-ahead byte per plain read shorter than its residue, the bytes completing operations of reads already over, and those a timeout finds in flight; none is late without a timeout |
| ReaderRuns.WholeStream | include/rtac_asio/StreamReader.h:81-86 | The stream is continuous if and only if no byte came for a read already over or was in flight at its timeout, and no plain read asked for less than the residue it found |
| ReaderRuns.NeverStranded | src/StreamReader.cpp:101-138 | A read is in progress iff a completion carrying its id is outstanding; there is at most one; while it waits on the transport, or is one of a read-until, the residue is empty, so a saved tail always goes into an empty one |
| ReaderRuns.CallbackAccounting | src/StreamReader.cpp:101-164 | Callbacks posted, plus one if a read is live, equal reads accepted, in order of acceptance; each keeps its primitive's promise (exact size; ends at the first delimiter) unless its timer or an error cut it short; `Errors.ErrorsTold` says when that is an error, `Effects.TimerEnds` when it is the timer |
| ReaderRuns.ReadExactness | src/StreamReader.cpp:241-257 | An `async_read`, with or without a timeout, reports exactly the bytes it asked for, unless its timer or an error ended it |
| ReaderRuns.WritesInside | src/StreamReader.cpp:205-257 | Whatever is outstanding for the live read writes behind what it holds and inside the requested size, plus the residue for a read-until |
| ReaderRuns.IdsStayRetired | src/StreamReader.cpp:148-152 | Over any run, the id of a read that is over never becomes live again |
| ReaderRuns.StaleHandlersInert | src/StreamReader.cpp:148-164 | A timer or continuation of a retired read, run at any later time, changes nothing but the queue and the dump |
| Errors.ErrorsTold | src/StreamReader.cpp:218-368 | In runs of any length a callback is told an error iff the completion whose continuation posted it came with one; a read ended by its residue or its timer is told none |
| Errors.NoneOutOfNothing | src/StreamReader.cpp:125-138 | So a run without transport errors reports none |
| Errors.ErrorEnds | src/StreamReader.cpp:218-368 | An error ends the read it comes for, whatever its primitive, and is told to its callback |
| Effects.AcceptEffect | src/StreamReader.cpp:101-123 | A request to an idle reader is recorded as made, its timer queued iff it has a timeout; the residue ends a read-until at its first stop, feeds a plain read, or is copied by a read-until, which asks for the full size behind it |
| Effects.BusyEffect | src/StreamReader.cpp:101-109 | A busy reader refuses, unchanged |
| Effects.ContinueEffect | src/StreamReader.cpp:218-368 | The continuation of the live read adds its chunk, up to the delimiter; the read is over iff it is partial, in error, full or has its delimiter, and is reported with that error and those bytes; otherwise exactly what is missing is asked for |
| Effects.CompleteEffect | include/rtac_asio/StreamInterface.h:62-64 | A completion keeps its bytes and its error for its own continuation and changes no other handler |
| Effects.TimerEnds | src/StreamReader.cpp:154-164 | In every run the timer of a live read is queued iff it was made with a timeout, and whenever it runs it ends the read with what it holds and no error, and wakes the waiter |
| Effects.ReportIsQueued | src/StreamReader.cpp:125-138 | Each report is one callback newly queued, with its error and the number of bytes at the destination; no step queues a callback without a report |
| Effects.UserRuns | src/StreamReader.cpp:278-289 | A callback that runs leaves the queue, wakes the waiter if it is a `read_callback`, and changes nothing else |
| IdWrap.EveryRunAccounting | src/StreamReader.cpp:101-138 | In runs of any length, every 2^32nd accepted read gets no callback, ever, and every other one its own, once, in order of acceptance |
| IdWrap.StaleActsIff | src/StreamReader.cpp:148-164 | In runs of any length, the timer or continuation of the `n`th read acts iff `n` is the number of the live read modulo 2^32, or the reader is idle, `n` is a multiple of 2^32 and there is something to change |
| IdWrap.ActsWhileLive | src/StreamReader.cpp:148-164 | Below 2^32 accepted reads that is: exactly while its own read is live |
| IdWrap.WrappedReadActs | src/StreamReader.cpp:110-111 | A reachable state at 2^32 accepted reads where a completion of the unanswered read puts a byte into the residue of the idle reader |
| ReaderInvariant.StepKeeps | src/StreamReader.cpp:101-368 | Every step keeps the invariant: ids, accounting, shape of the outstanding completion, balance of bytes |
| ReaderModel.DrainContract | src/StreamReader.cpp:180-193 | Draining loses nothing iff the request covers the residue; otherwise exactly the byte after the copied ones |
| ResidueRuns.LookAheadLoses | src/StreamReader.cpp:183-189 | A run of a new reader: [7, 1, 2] is taken, a plain read for one byte gets 1, and 2 is lost |
| ResidueRuns.ReportsPastSize | src/StreamReader.cpp:320-322 | From the same start a read-until for three bytes reports five |
| ReaderModel.FirstStopSpec | src/StreamReader.cpp:299-317 | The residue satisfies a read-until at the first byte that is the delimiter or fills the request, and at none before |
| ReaderModel.Seen | src/StreamReader.cpp:338-340 | The continuation stops at the first byte that equals the delimiter as a signed char |
| Framing.FramingTheorem | src/StreamReader.cpp:291-368 | For every chopping and interleaving in which no timer or error cut a read short, reports of successive read-untils are the first frames of the delimiter-split of the stream; all complete frames received, while nothing is in flight |
| Framing.ChunkIndependence | src/StreamReader.cpp:291-368 | Two such runs over one stream, chopped differently, report the same frames |
| Framing.HighDelimiterBlocks | src/StreamReader.cpp:338-361 | For a delimiter from 128 up they report blocks of exactly the size asked, wherever the delimiter is, and save nothing |
| UntilCall.ChunkFreeIff | src/StreamReader.cpp:299-368 | For every delimiter: one call is independent of the chunks iff the residue is enough, or the delimiter is below 128 and there is no residue or it comes within the size, or it is not and there is neither a residue nor a delimiter before the last byte |
| UntilCall.PromiseKept | src/StreamReader.cpp:291-368 | In those cases the call reports residue ++ stream up to the delimiter or the size |
| UntilCall.NeverAtHighDelimiter | src/StreamReader.cpp:338-361 | A call for a delimiter from 128 up that the residue does not satisfy goes on to the full size |
| UntilCall.MissedDelimiter | src/StreamReader.cpp:340 | Delimiter 200, chunk [200, 1]: the frame is [200], and both bytes are reported |
| UntilCall.DestinationIff | src/StreamReader.cpp:299-325 | What is asked of the transport, completed and reported stays inside `maxSize` for every schedule iff the residue is empty or enough; it always stays inside `maxSize` plus the residue |
| UntilCall.Progress | src/StreamReader.cpp:241-257 | Whatever event comes, a read in progress stays as it is, is over, or has its chunk added and still lacks bytes |
| UntilCall.ReadEnds | src/StreamReader.cpp:249-256 | In any run, empty completions and other handlers included, a read is over once as many of its continuations have run on non-empty chunks as it lacks bytes |
| Dump.DumpFidelity | src/StreamReader.cpp:88-99 | With recording on and no read timed out, errors included, the dump is the chunks received without an error in order of completion, less only the one not yet continued; replayed bytes are not recorded again |
| Dump.DumpInOrder | src/StreamReader.cpp:88-99 | For every run, timeouts included, recording switched on and off at any time: the dump is what the transport supplied without an error for the operations asked for while it was on and handled while it was on, each once, in the order in which they were handled; the rest waits in the queue |
| StreamReader.StreamReader.constructor | src/StreamReader.cpp:35-40 | A new reader is the start of all runs |
| StreamReader.StreamReader.NewRead | src/StreamReader.cpp:101-123 | Refused and unchanged when busy; otherwise the next id, an empty destination and a timer if asked |
| StreamReader.StreamReader.FinishRead | src/StreamReader.cpp:125-138 | The read is over and its callback posted with the bytes processed; nothing when idle |
| StreamReader.StreamReader.TimeoutReached | src/StreamReader.cpp:154-164 | Ends the read its id names and wakes the waiter; nothing for any other id |
| StreamReader.StreamReader.Drain | src/StreamReader.cpp:180-189 | The copy loop with its look-ahead: what is copied, what is left in the residue, and that no other byte of the destination changes |
| StreamReader.StreamReader.DoReadSome | src/StreamReader.cpp:177-203 | From the residue, posted at once, writing only inside the count; from the transport only when the residue is empty |
| StreamReader.StreamReader.AsyncReadSome | src/StreamReader.cpp:205-216 | Accepted iff idle; one step of the machine; the invariant is kept; nothing is written behind the count |
| StreamReader.StreamReader.AsyncReadSomeContinue | src/StreamReader.cpp:218-226 | Inert unless the id is live; otherwise the read is over |
| StreamReader.StreamReader.AsyncRead | src/StreamReader.cpp:228-239 | Accepted iff idle; one step of the machine; the invariant is kept; nothing is written behind the count |
| StreamReader.StreamReader.AsyncReadContinue | src/StreamReader.cpp:241-257 | Inert unless the id is live; otherwise adds the chunk and ends or asks for the rest, which fits |
| StreamReader.StreamReader.StoreResidue | src/StreamReader.cpp:299-317 | The loop over the residue stops at the first satisfying byte; what is stored and what is left |
| StreamReader.StreamReader.StartUntil | src/StreamReader.cpp:298-325 | Ends from the residue, or asks the transport behind it |
| StreamReader.StreamReader.AsyncReadUntil | src/StreamReader.cpp:291-325 | Accepted iff idle; one step of the machine; the invariant is kept; a destination of `maxSize` is enough unless there is a residue that does not satisfy the call, and nothing is written behind that room |
| StreamReader.StreamReader.Search | src/StreamReader.cpp:337-340 | The loop finds the first delimiter of the chunk, or its end |
| StreamReader.StreamReader.SaveRest | src/StreamReader.cpp:345-348 | The bytes behind the delimiter are appended to the residue, in order |
| StreamReader.StreamReader.Take | src/StreamReader.cpp:340-358 | Up to the delimiter the chunk goes to the read, the rest to the residue |
| StreamReader.StreamReader.AsyncReadUntilContinue | src/StreamReader.cpp:327-368 | Inert unless the id is live; otherwise absorbs the chunk and ends or asks for the rest, which fits |
| StreamReader.StreamReader.DumpCallback | src/StreamReader.cpp:88-99 | Records the chunk when there is no error and recording is on, byte by byte |
| StreamReader.StreamReader.TransportComplete | include/rtac_asio/StreamInterface.h:62-64 | A completion writes the chunk behind what the live read has and no other byte; one step of the machine, by `Effects.CompleteEffect` with its own bytes and error; the invariant is kept |
| StreamReader.StreamReader.RunDone | src/StreamReader.cpp:195-201 | A completion is recorded, then continued by the primitive it belongs to |
| StreamReader.StreamReader.RunHandler | src/StreamReader.cpp:154-368 | Any queued handler, live or stale: one step of the machine; the invariant is kept; nothing is written behind the size asked |
| WriterRuns.WriterRefinesReader | src/StreamWriter.cpp:99-231 | Along every run the writer, with what it has sent in the place of what a reader holds, is the state of the reader machine after the mirrored steps |
| WriterRuns.ReportsMessages | src/StreamWriter.cpp:201-231 | Every report counts a beginning of its own message, all of it for a whole write that neither its timer nor an error ended |
| WriterRuns.WriterAccounting | src/StreamWriter.cpp:99-136 | With timeouts and errors: bytes taken, less those taken for writes given up, are the reported ones and those of the live message; how many those are, event by event, and none without a timeout |
| WriterRuns.WriterOrder | src/StreamWriter.cpp:201-231 | When none was cut short, the transport has the finished messages, whole and in order, and a beginning of the live one |
| WriterLedger.TakenPerWrite | src/StreamWriter.cpp:123-231 | Write by write: what the transport took is a beginning of that message, namely what was reported followed by what came too late, and nothing comes late unless its timer ended the write |
| WriterEffects.WriteEffect | src/StreamWriter.cpp:99-121 | A write to an idle writer is recorded as made, its timer queued iff it has a timeout, and the whole message is offered |
| WriterEffects.SendEffect | src/StreamWriter.cpp:190-231 | The continuation of the live write counts what was taken; a partial write, an error or a finished message is reported with that beginning of the message and that error, and otherwise exactly the rest of the message is offered |
| WriterEffects.WriteDumpInOrder | src/StreamWriter.cpp:87-97 | For every run the record is what the transport took without an error for the operations made and handled while recording was on, in the order in which they were handled |
| WriterErrors.WriteErrorsTold | src/StreamWriter.cpp:190-231 | A write callback is told an error iff the take whose continuation posted it came with one |
| WriterErrors.WriteErrorEnds | src/StreamWriter.cpp:190-231 | An error ends the write it comes for and is told to its callback |
| StreamWriter.StreamWriter.NewWrite | src/StreamWriter.cpp:99-121 | Refused and unchanged when busy; otherwise the next id and a timer if asked |
| StreamWriter.StreamWriter.FinishWrite | src/StreamWriter.cpp:123-136 | The write is over and its callback posted with the count; nothing when idle |
| StreamWriter.StreamWriter.TimeoutReached | src/StreamWriter.cpp:152-162 | Ends the write its id names and wakes the waiter; nothing for any other id |
| StreamWriter.StreamWriter.DoWriteSome | src/StreamWriter.cpp:164-175 | Offers the bytes to the transport, recording if it is on |
| StreamWriter.StreamWriter.AsyncWriteSome | src/StreamWriter.cpp:177-188 | Accepted iff idle; one step of the machine; the invariant is kept |
| StreamWriter.StreamWriter.AsyncWrite | src/StreamWriter.cpp:201-212 | Accepted iff idle; one step of the machine; the invariant is kept |
| StreamWriter.StreamWriter.AsyncWriteSomeContinue | src/StreamWriter.cpp:190-199 | Inert unless the id is live; otherwise the write is over |
| StreamWriter.StreamWriter.AsyncWriteContinue | src/StreamWriter.cpp:214-231 | Inert unless the id is live; otherwise counts and ends or offers what is left of the message |
| StreamWriter.StreamWriter.DumpCallback | src/StreamWriter.cpp:87-97 | Records the bytes written when there is no error and recording is on, byte by byte |
| StreamWriter.StreamWriter.RunHandler | src/StreamWriter.cpp:152-231 | Any queued handler, live or stale: one step of the machine; the invariant is kept |
| StringStream.StringStream.AsyncReadSome | include/rtac_asio/StringStream.h:63-78 | Takes the oldest bytes: as many as asked, or all there are; what it took and what is left are what there was |
| StringStream.StringStream.AsyncWriteSome | include/rtac_asio/StringStream.h:80-95 | Appends all of it, or until the buffer is full, never past the capacity |
| StringStream.StringStream.Flush | include/rtac_asio/StringStream.h:97-98 | Empties the buffer |
| Loopback.FirstInFirstOut | include/rtac_asio/StringStream.h:63-95 | For every interleaving, with timeouts on either side: taken from the writer == taken by the reader ++ buffer, within the capacity; each side makes a run of its own |
| Loopback.EndToEnd | include/rtac_asio/StringStream.h:63-95 | Whatever is written and however the writes end, if no byte came too late for its read and no read was short: delivered ++ live read ++ residue ++ buffer == taken from the writer |
| Loopback.WholeMessages | src/StreamWriter.cpp:201-231 | If also all writes are whole and none was cut short, those are the finished messages and the beginning of the live one |
| Loopback.MessagesArrive | src/StreamReader.cpp:291-368 | Delimited messages written are reported by read-untils as they were, in order, for any capacity; all of them once everything is drained |
| Loopback.LStepMakes | include/rtac_asio/StringStream.h:63-95 | Each call and each handler is a step of its own side, which alone goes on |
| Delivery.CanDeliver | include/rtac_asio/StringStream.h:63-95 | From every reached state in which delimited messages are written whole and read by read-untils, none cut short, there is a continuation of handlers and read-untils after which every message written has arrived, in order, for any capacity but 0 |
| Delivery.WaitingReadTakes | include/rtac_asio/StringStream.h:63-78 | In every run a read that waits for more takes, at its next turn, all it lacks or all there is |
| Bytes.FramesAre | src/StreamReader.cpp:338-361 | What frames are: pieces that end with the delimiter and hold it nowhere else, end to end, and behind them no other |
| UdpClientStream.UdpClientStream.constructor | src/UDPClientStream.cpp:37-48 | An empty buffer, cursors at its start |
| UdpClientStream.UdpClientStream.Flush | src/UDPClientStream.cpp:99-103 | Empties the buffer |
| UdpClientStream.UdpClientStream.AsyncReadSome | src/UDPClientStream.cpp:112-136 | Hands over the minimum of what is asked and what is buffered, in order; receives only on an empty buffer; cursors stay in bounds, and at the start when an empty buffer has them there |
| UdpClientStream.UdpClientStream.SocketReceive | src/UDPClientStream.cpp:131-132 | The socket writes the datagram, truncated, at the start of the buffer, wherever the cursors are |
| UdpClientStream.UdpClientStream.ReceiveContinue | src/UDPClientStream.cpp:138-151 | The end cursor moves by what was received, from wherever it is; an error is passed on with no bytes, an empty buffer starts another receive, and otherwise the front of the buffer is handed over |
| UdpClientStream.TruncatedIs | src/UDPClientStream.cpp:131-132 | A datagram is kept whole if it fits in the buffer, and otherwise as far as the buffer goes |
| UdpReader.ServeIs | src/UDPClientStream.cpp:112-151 | The inline chain of callbacks (`Serve`, which ends) is a run of the reader, keeps its accounts and loses no byte |
| UdpReader.HandLightens | src/UDPClientStream.cpp:116-128 | Why it ends: a callback that asks again has consumed buffered bytes, or was asked for none and then asks for some |
| UdpReader.Answered | src/UDPClientStream.cpp:116-128 | An inline callback keeps the reader's invariant; the only new operation is the newest handler, and there is none after an error or when all that was asked for was given; the other operations stay |
| UdpRuns.StepTidyIff | src/UDPClientStream.cpp:112-151 | From a tidy state (stream whole, cursors right, any receive on a rewound buffer) an event leads to one iff it is not a datagram that is longer than its operation asks for and comes beside another receive; what each event tells the reader is `UdpRuns.EventMakes` |
| UdpRuns.EventMakes | src/UDPClientStream.cpp:112-151 | Each event reaches the reader: a request and a handler as such, a failed receive as an error without bytes, a datagram as the front of what is then buffered, or as nothing, and then the receive stays |
| UdpRuns.FailureTold | src/UDPClientStream.cpp:138-151 | A receive that fails is no longer outstanding and changes no byte; if it was the live read's, that read is over and told the error and what it holds, and otherwise nobody is told |
| UdpRuns.DatagramStream | src/UDPClientStream.cpp:112-151 | For every run without such an event, timeouts included: `bufferBegin_ <= bufferEnd_ <= buffer_.size()`, both at the start when equal or when a receive is outstanding; taken ++ buffered is the concatenation of the datagrams |
| UdpRuns.OneDatagramEach | src/UDPClientStream.cpp:116-128 | Each completion of such a run got the minimum of what was asked and what was left of one datagram, and together they are what the reader took |
| UdpRuns.DatagramsDelivered | src/UDPClientStream.cpp:112-151 | If besides no byte came too late for its read and no read was short, delivered ++ live read ++ residue ++ buffered is the concatenation of the datagrams |
| UdpRuns.OneAtATimeIsFine | src/UDPClientStream.cpp:131-135 | With one receive outstanding at a time a run has no such event |
| UdpRuns.OneUnlessTimedOut | src/UDPClientStream.cpp:131-135 | Unless a read times out there is one receive at a time, that of the live read |
| UdpRuns.TwoReceivesIff | src/UDPClientStream.cpp:131-135 | In every run two receives are outstanding iff the receive of a read that timed out is, and beside it the live read or another such read waits on the socket |
| UdpRuns.OverrunIff | src/UDPClientStream.cpp:138-151 | From a tidy state with two receives outstanding, a datagram for one and then for the other can take the end cursor out of the buffer iff the first asked for fewer bytes than the buffer holds |
| UdpRuns.OverrunReached | src/UDPClientStream.cpp:131-144 | For every buffer, a run with one timeout that takes the end cursor to twice its size |
| UdpRuns.StreamBreaks | src/UDPClientStream.cpp:131-151 | A run inside the bounds with one timeout: datagrams [5, 6] and [7] come, the second read gets 6, 7 is lost, and a byte that never came is buffered |
| AsyncService.AsyncService.RunStep | src/AsyncService.cpp:52-83 | Each access of `run`, on every path out of the executor, is a step of the machine and keeps the locks and the run guard |
| AsyncService.AsyncService.StartStep | src/AsyncService.cpp:91-117 | Each access of `start` is a step of the machine and keeps the locks and the run guard; what the steps come to is `ServiceCalls.StartWhenRunning` and `ServiceCalls.StartStarts` |
| AsyncService.AsyncService.StopStep | src/AsyncService.cpp:119-133 | Each access of `stop` is a step of the machine and keeps the locks and the run guard |
| AsyncService.SingleRunner | src/AsyncService.cpp:52-83 | For any number of threads and any interleaving: at most one thread is in the executor, and `isRunning_` is set iff there is one |
| AsyncService.StepSafe | src/AsyncService.cpp:52-133 | Every step keeps mutual exclusion on both mutexes and the run guard |
| Handshake.StartIsNotified | src/AsyncService.cpp:105-117 | With `run` left to the workers, at most one worker is alive, and a sleeping `start` has a worker still to notify it, which can take the mutex |
| Handshake.WorkerProgress | src/AsyncService.cpp:54-63 | While `start` sleeps each step of the worker brings the notification nearer, and the last wakes it |
| Handshake.StartIsWoken | src/AsyncService.cpp:113-116 | In every reachable state a sleeping `start` is woken by at most four steps of its worker |
| LostWakeup.WokenIff | src/AsyncService.cpp:55-63 | A worker about to enter wakes the sleeper iff nobody else is running the executor |
| LostWakeup.ReturnsIff | src/AsyncService.cpp:54-117 | In every safe state, without further calls of `run` by clients, a sleeping `start` can return iff it has been notified or somebody is on the way to the notification |
| LostWakeup.StuckForEver | src/AsyncService.cpp:91-117 | Otherwise it sleeps in every continuation without such calls, and nobody gets on that way |
| LostWakeup.DirectRunLosesWakeup | src/AsyncService.cpp:93-117 | Such a state is reached when a client calls `run` itself between lines 94 and 107: `start` keeps startMutex_ and sleeps on, in every continuation without another such call |
| ServiceCalls.StartWhenRunning | src/AsyncService.cpp:91-96 | `start` on a running service returns in two steps, with everything else as it was |
| ServiceCalls.NobodyIsHired | src/AsyncService.cpp:91-112 | For every run in which the service keeps running: no thread is made, no `start` joins one, `thread_` is only ever forgotten |
| ServiceCalls.RunAlone | src/AsyncService.cpp:52-83 | `run` with nobody in it sets the flag, wakes a waiting `start`, and is in the executor with both mutexes as they were; and it clears the flag when it leaves |
| ServiceCalls.StartStarts | src/AsyncService.cpp:91-117 | `start` on a service that does not run, with no worker or one that is over, returns with a new worker in the executor and both mutexes free |
| ServiceCalls.StopReturns | src/AsyncService.cpp:119-133 | `stop` with no live worker returns, and only forgets `thread_` |
| ServiceCalls.CallsReturn | src/AsyncService.cpp:52-133 | Whole calls of a client, from call to return: `start` and `run` on a running service change nothing, `stop` with no live worker only forgets it |
| ServiceCalls.CallsRun | src/AsyncService.cpp:52-117 | Whole calls of a client on a service that does not run: `start` leaves a new worker in the executor, `run` the client itself |
| ServiceCalls.JoinEnds | src/AsyncService.cpp:97-131 | In every run, direct calls of `run` included: a `start` or `stop` that joins the worker waits iff that is still in `run`, and steps of the threads there are end the wait |
| ServiceCalls.StopEnds | src/AsyncService.cpp:119-133 | So a waiting `stop` can return in every reached state |
| Blocking.BlockingReturns | src/StreamReader.cpp:259-276 | Calls made with no callback of an earlier call queued, or satisfied at once, return what was reported for their own reads, in order, timeouts included |
| Blocking.AllSettledUnlessTimedOut | src/StreamReader.cpp:259-289 | A client that only makes blocking calls always calls so, unless one of them times out |
| Blocking.NoLostWakeup | src/StreamReader.cpp:278-289 | In every run a sleeping client has been notified, or its read is live with a completion outstanding, or a callback that notifies it is queued and free to run; that it then returns is `BlockingCalls.SleeperReturns` |
| BlockingCalls.SleeperReturns | src/StreamReader.cpp:272-289 | In every run a client that sleeps while its read is over returns in at most three events (the callback if it was not yet notified, its waking, its test), with what is counted at the destination; that is the last report if its calls were settled |
| BlockingCalls.CompletionReturns | src/StreamReader.cpp:259-289 | A client asleep while its read waits on the transport returns, in at most five events, what it holds and the chunk, as soon as that ends the read |
| BlockingCalls.CallReturns | src/StreamReader.cpp:259-289 | A whole call, made in any run, returns what the residue gives it if that is enough, and otherwise the residue and what the transport brings, as far as the delimiter |
| BlockingCalls.BusyCallReturns | src/StreamReader.cpp:262-270 | A call made while an earlier read is in progress returns 0 at once and changes nothing |
| Blocking.ReturnsOwnIff | src/StreamReader.cpp:259-289 | A call returns its own report in every continuation iff no callback of an earlier call is queued or its residue satisfies it at once |
| Blocking.UnsettledReturnsEarly | src/StreamReader.cpp:272-275 | Otherwise the run in which that callback wakes it, and it returns while its own read is in progress |
| Blocking.SecondCallReturnsEarly | src/StreamReader.cpp:154-164 | From a new reader: a call that times out, and the next one returning early |
| Blocking.BStepKeeps | src/StreamReader.cpp:370-387 | Every step of the executor, and of a client whose calls are made with no callback of an earlier one queued or are satisfied at once, keeps the agreement between the notification, the queue and the live read |

## Left out

- src/SerialStream.cpp, src/TCPClientStream.cpp, src/ip_utils.cpp, opening and closing of sockets: the transport that chops the stream as it likes.
- src/Stream.cpp: forwarding.
- `flush` and `reset` of reader and transport during a run; opening of dump files; real time.
- `stop` always ending: `service_.restart()` can undo a `service_.stop()` made before it. What is claimed is that it can end (`ServiceCalls.StopEnds`).
- A thread that cannot be created (src/AsyncService.cpp:109-111).
- Memory shared between reads: a stale operation may still write into the buffer of a read that timed out. The class drops those bytes, and the dump records them as supplied, which is right as long as that buffer is not used again.
- Accesses outside the locks at src/StreamReader.cpp:212-213 racing with handlers.
- Blocking reads and the composition over UDP and over StringStream are machines on values, not classes: they interleave several threads or objects. That over UDP makes its steps with the functions the methods of the class are proved against (`Give`, `Received`, `Window`).
- What a UDP stream does once its end cursor has left the buffer.
- The blocking `write`, which mirrors `read` with `write_callback`.
- `async_write_some` over UDP: one call to the socket.
- StreamReader.StreamReader.AsyncReadUntil: when there is a residue that does not satisfy the call, asks for room for it on top of `maxSize`, which the original does not tell its callers; by `UntilCall.DestinationIff` that room is needed then and only then.
- StreamReader.StreamReader.StartUntil: the same.
- UdpClientStream.UdpClientStream.ReceiveContinue: only while the end cursor stays in the buffer; `UdpRuns.OverrunReached` shows that it may not.

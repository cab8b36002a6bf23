# WIZnet driver library: model and proofs

The library drives WIZnet TCP/IP chips. The chip runs on its own: its registers and buffers change
between any two accesses of the driver. This project models the driver's hardest parts in that setting
and proves what they promise, for every input, every length of run and every schedule of the chip.

The modules, from the bottom up:

- `Bytes`: bytes, 16-bit words, wrap-around, masking. `Codes`: return codes, status values, the poll cap.
- `Ring`: a power-of-two buffer with free-running 16-bit pointers refines an unbounded byte queue.
  `W5100` is the copy engine of that chip, refining `Ring` on one socket and touching no other.
- `Framing`: a datagram receiver in the abstract. `W5300` (bytes through 16-bit FIFOs with a saved odd
  byte) and `Datagrams` (packets behind headers in a W5500 stream) both refine it.
- `Sampling`: reading a size register byte by byte while it moves.
- `Clock`: the 64-bit timeline rebuilt from a wrapping 32-bit counter, deadlines, bounded polls.
  `Timeouts`: the floor under the operation timeout. `Capacity`: initialisation and buffer sizes.
- `Locks`: the locking order, for any number of threads. `OpenRace`: threads racing in `socket()`.
- `Chip`: one W5500 socket as the adversary. Between two accesses it may drain, deposit, carry out the
  command in the command register, and raise the event that ends a SEND or a timeout of a connection.
- `Monitor`: what a good history of a socket is, and what follows from it. `SocketState` and `Socket`:
  the per-socket statics of `Ethernet/socket.c` and every call that moves them. `Streams`: a whole run of
  a stream socket as two unbounded queues. `Runs`: any sequence of calls on any socket, and what its
  history proves of it. `Loopback`: the TCP echo server on top.
- `DnsFormat`: RFC 1035 names, questions and records, stated without the driver's code. `DnsParser` and
  `DnsQuery`: the response parser and the query printer of `Internet/DNS/dns.c`.

The layers compose: a sampled size never overstates the free space, so `send` never overwrites a byte
that has not been drained, so the transmit ring is a queue, so the echo loop is faithful.

`Socket.Socket.Valid()` is the invariant of every run: the chip's rings hold what the counters say, the
history is good and lists the very commands the chip was given, and driver and chip agree. Every call
requires it and ensures it, and says what it adds to the history, which no call ever shortens. Ghost
fields (`history`, `inSync`, `begun`, `locks`) record what the contracts speak of and decide nothing.

Where the code does not do what one would hope, the model follows the code and gives the exact condition:

- a MACRAW `sendto` does not look at the free space (`SocketState.SendToOutcome`, `Chip.OverrunHits`);
- a `recvfrom` whose RECV is not accepted, nonblocking or timed out, has copied bytes it does not count: it
  has lost its place, unless what it copied was a whole packet (`Datagrams.RecvFromOutcome`,
  `Datagrams.HeaderUncounted`, `Datagrams.PieceUncounted`, at a concrete chip `Datagrams.BusyLosesPlace`);
  an IPRAW packet without payload loses it too, and a frame that is too long closes the socket;
- a `recvfrom` that takes the timeout of a pending datagram leaves it pending until a reset
  (`SocketState.TakenSticks`, `Runs.AskInVain`);
- a thread that read another status than CLOSED before it took the lock closes the socket of whoever has won
  it meanwhile (`OpenRace.WinnerKeeps`, `OpenRace.TakenOver`);
- initialisation without size arrays, and a size setter that fails after its write
  (`Capacity.Driver.Init`, `Capacity.Driver.SetTxSize`); a software reset behind the timeout floor
  (`Timeouts.ResetKeepsFloor`); a clock sampled less than once a period (`Clock.ObserveExact`);
- a name of exactly 192 characters in a DNS reply has its closing NUL written behind the local buffer
  (`DnsParser.OverrunsExactly`, `DnsParser.ReplyOverrunsExactly`, on a concrete reply
  `DnsParser.LongReplyOverruns`), and a pointer to a pointer is given up (`DnsParser.ParseMeetsFormat`);
- names with empty labels and opcodes above 15 in queries (`DnsQuery.QueryRoundTrip`, `DnsQuery.QueryFields`);
- an odd send on the W5300 reads the byte behind the data (`W5300.Transmitter.SendData`), which the chip does
  not send (`W5300.SentBytes`).

`Ethernet/socket.h:177` describes PACK_REMAINED as meaning that more of a packet is to come. The code never
clears it at the end of a packet; the model follows the code (`Socket.Socket.SetRemained`), and the boundary
of a packet shows in the remaining size instead.

## Model

| member | source | states |
|---|---|---|
| Ring.WrapModSize | Ethernet/W5100/w5100.c:296-321 | The wrap of a 16-bit pointer is invisible modulo any ring size, so a pointer keeps selecting the same place across its own wrap. |
| Ring.WriteAppends | Ethernet/W5500/w5500.c:225-241 | Data that fits is appended to the queue of unread bytes, and no byte already there changes. |
| Ring.SkipDrops | Ethernet/W5500/w5500.c:243-260 | Advancing the read pointer drops exactly the bytes stepped over, from the front. |
| Ring.OverrunHitsOldest | Ethernet/W5500/w5500.c:225-241 | Data that does not fit overwrites the oldest unread byte: fitting is the exact condition for leaving the queue alone. |
| Ring.RunIsFifo | Ethernet/W5500/w5500.c:225-260 | Any interleaving of a producer and a consumer, over any number of wraps: consumed followed by still queued equals first queued followed by produced, and the pointer difference accounts for the rest. |
| W5100.RegionEnds | Ethernet/W5100/w5100.c:258-283 | The region of a socket ends before that of any later socket begins. |
| Bytes.MaskIsRemainder | Ethernet/W5100/w5100.h:1790-1791 | Bit by bit, masking with k ones is the remainder modulo 2 to the k. |
| W5100.MaskSelects | Ethernet/W5100/w5100.c:296-321 | Masking a pointer with size - 1, bit by bit, is its remainder modulo the size. |
| W5100.PutSegments | Ethernet/W5100/w5100.c:296-321 | Byte-wise ring storage equals one segment copy, or two when the data crosses the end of the region. |
| W5100.PeekSegments | Ethernet/W5100/w5100.c:334-360 | The next n ring bytes are one slice of the region, or its tail and its head. |
| W5100.OtherSocket | Ethernet/W5100/w5100.c:272-321 | A write confined to one socket's region leaves every other region of that direction alone when the sizes total at most 8 KB. |
| W5100.OtherArea | Ethernet/W5100/w5100.c:272-321 | A write confined to the transmit area leaves every receive region alone. |
| W5100.W5100.WriteBuf | Ethernet/W5100/w5100.c:119-168 | The byte loop replaces exactly len bytes of chip memory at the address. |
| W5100.W5100.ReadBuf | Ethernet/W5100/w5100.c:174-222 | The byte loop fetches exactly len bytes and leaves chip memory alone. |
| W5100.W5100.BaseOf | Ethernet/W5100/w5100.c:258-283 | The base of a socket is the start of the area plus the sizes of the sockets before it. |
| W5100.W5100.MaskOf | Ethernet/W5100/w5100.c:340-343 | The bitwise mask gives the place in the ring. |
| W5100.W5100.CopyIn | Ethernet/W5100/w5100.c:296-321 | The one or two segment copies store the data in the ring from the pointer on, and change nothing outside the region. |
| W5100.W5100.CopyOut | Ethernet/W5100/w5100.c:334-360 | The one or two segment copies hand over the next len ring bytes in order. |
| W5100.W5100.SendData | Ethernet/W5100/w5100.c:296-321 | One write step of the socket's transmit ring; every other ring of either direction is as before. |
| W5100.W5100.RecvData | Ethernet/W5100/w5100.c:334-360 | Hands over the next len bytes and takes one skip step of the socket's receive ring; every other ring is as before. |
| W5100.W5100.RecvIgnore | Ethernet/W5100/w5100.c:362-369 | Skips len received bytes of that ring only. |
| Framing.PacketsReassemble | Ethernet/socket.c:1737-1797 | For every queue of packets, empty ones included, and all read lengths: the pieces handed out regroup into exactly the packets, in order, the one in progress lacking just its rest. |
| Framing.Progress | Ethernet/socket.c:1766-1775 | Every call with room opens a packet or hands out a byte, so it gets nearer to the end of the queue. |
| Framing.RunsLater | Ethernet/socket.c:1662-1692 | Packets that arrive behind the others change nothing of a run that has been made. |
| W5300.HeaderStep | Ethernet/socket.c:1737-1765 | The next header is word aligned: eight bytes popped from the FIFO are the header, and what is left is the payload. |
| W5300.WordsStep | Ethernet/W5300/w5300.c:202-219 | Taking n bytes from an even place gives the next n payload bytes, uses up half as many words rounded up, and keeps the byte an odd count leaves over. |
| W5300.SavedStep | Ethernet/socket.c:1785-1792 | The saved byte is the next payload byte, and handing it out restores word alignment. |
| W5300.Socket.ReceiveData | Ethernet/W5300/w5300.c:202-219 | Pops one word for every two bytes, high byte first, and saves the low byte of the last word. |
| W5300.Socket.OpenPacket | Ethernet/socket.c:1737-1765 | Decodes address, port and length of the next datagram and stands at its payload. |
| W5300.Socket.HandOutWords | Ethernet/socket.c:1793-1796 | Hands out the next n bytes; the saved-byte flag is set exactly when an odd count leaves bytes of the packet behind. |
| W5300.Socket.HandOut | Ethernet/socket.c:1776-1797 | Hands out the saved byte first, then words; as many bytes as asked for or as remain. |
| W5300.Socket.ReceiveFrom | Ethernet/socket.c:1737-1797 | Every call, whatever its length, is one step of the abstract receiver: no byte is lost or repeated at odd boundaries. |
| W5300.Socket.Arrive | Ethernet/W5300/w5300.c:178-189 | A datagram that arrives between two calls is queued behind the others; nothing handed out so far changes. |
| W5300.Socket.Serve | Ethernet/socket.c:1737-1797 | Over any run, with datagrams arriving and calls of any lengths in any order, the pieces regroup into exactly the payloads that arrived, in order, up to the rest of the packet in progress and those not opened. |
| W5300.Transmitter.SendData | Ethernet/W5300/w5300.c:192-200 | A word for every two bytes, the last one of an odd number filled up with the byte behind the data; that byte lies behind the whole array if and only if an odd number ends where the array does. |
| W5300.SentBytes | Ethernet/socket.c:1061-1067 | From those words the chip, told the length, takes exactly the data: what the last word was filled up with makes no difference. |
| Sampling.AgreeingReadsAreTrue | Ethernet/W5500/w5500.c:137-172 | Two byte-wise reads of a growing register that agree show a value it truly held. |
| Sampling.NoGrowthAgrees | Ethernet/W5500/w5500.c:137-172 | A read during which the register does not move is exact, so a disagreement proves growth. |
| Sampling.SingleReadMayLie | Ethernet/W5500/w5500.c:137-172 | One read alone may show zero for a register that went from 255 to 256. |
| Sampling.SizeRegister.Round | Ethernet/W5100/w5100.c:228-253 | A round that does not agree has seen the register grow, which bounds the loop; one that agrees shows the two instants. |
| Sampling.SizeRegister.SampleW5100 | Ethernet/W5100/w5100.c:228-253 | The loop ends; its result combines the high byte of a value held during the call with the low byte of one held at the same time or later, zero included; it is no more than the register holds on return, and if not zero a value held as a whole. |
| Clock.ObserveExact | Ethernet/wizchip_conf.c:502-517 | The elapsed time shown is the true one if and only if less than a whole period of the counter has passed. |
| Clock.TimelineFaithful | Ethernet/wizchip_conf.c:502-517 | Over any number of samples and wraps, the rebuilt time differs from true time by one constant. |
| Clock.TimeSource.Now | Ethernet/wizchip_conf.c:502-517 | With a time source, true time less the constant; without one, the count of polls. |
| Clock.TimeSource.Deadline | Ethernet/wizchip_conf.c:478-487 | The deadline lies the timeout after the present; without a time source it is zero and the count restarts. |
| Clock.TimeSource.Expired | Ethernet/wizchip_conf.c:489-500 | With a time source, expired if and only if the true time of the deadline has come. |
| Clock.TimeSource.ExpiredLater | Ethernet/wizchip_conf.c:489-500 | The same, where the counter has moved since it was last read. |
| Clock.TimeSource.StartPoll | Ethernet/socket.c:124-129 | A wait starts now, with no polls and an unlimited timeout of its own. |
| Clock.TimeSource.PollExpired | Ethernet/wizchip_conf.c:557-577 | One more poll; it ends the wait only at the poll cap or once the deadline has truly come, and goes on only before both. |
| Timeouts.TimeoutConfig.UpdateFloor | Ethernet/wizchip_conf.c:391-405 | The timeout in force becomes the request raised to the retry window of the registers. |
| Timeouts.TimeoutConfig.SetOperationTimeout | Ethernet/wizchip_conf.c:441-455 | A zero is refused without effect, anything else is remembered and floored. |
| Timeouts.TimeoutConfig.SetTimeoutConfig | Ethernet/wizchip_conf.c:519-536 | Any zero field refuses the whole configuration; otherwise its operation timeout is the new request. |
| Timeouts.TimeoutConfig.SetNetTimeout | Ethernet/wizchip_conf.c:2458-2467 | Retry registers below one are raised to one, and the floor follows them. |
| Timeouts.TimeoutConfig.TimeoutConfigSet | Ethernet/wizchip_conf.c:468-476 | A zero is refused; anything else changes only the configured value, not the timeout in force. |
| Timeouts.WindowFits | Ethernet/wizchip_conf.c:391-405 | The retry window of any registers is below 32 bits, so the clamp never acts. |
| Timeouts.OperationTimeout | Ethernet/wizchip_conf.c:391-405 | After any sequence of setters the operation timeout is the larger of the last request and the retry window of the registers in force: no request is forgotten. |
| Timeouts.ResetKeepsFloor | Ethernet/wizchip_conf.c:1376-1388 | A software reset leaves the floor right if and only if both windows are equal or the request covers both. |
| Capacity.Driver.TransactionLock | Ethernet/wizchip_conf.c:1212-1219 | Takes the global lock and then every socket lock in order. |
| Capacity.Driver.TransactionUnlock | Ethernet/wizchip_conf.c:1221-1229 | Releases all of them, in the opposite order. |
| Capacity.Driver.ResetSocketState | Ethernet/wizchip_conf.c:1231-1239 | Every cached capacity is zero, and the statics of every socket number are as the program starts. |
| Capacity.Driver.Finish | Ethernet/wizchip_conf.c:1241-1253 | Every lock is released; the chip is ready after success and faulted with an error recorded after failure. |
| Capacity.Driver.RefreshCaches | Ethernet/wizchip_conf.c:1255-1280 | On success every capacity is 1024 times its size register. |
| Capacity.Driver.ResetChip | Ethernet/wizchip_conf.c:1282-1374 | On success every buffer has its reset size; the wait for the version register is bounded. |
| Capacity.Driver.SoftwareReset | Ethernet/wizchip_conf.c:1376-1388 | One transaction: the statics of every socket start afresh; ready with capacities agreeing, or faulted, and no lock left held. |
| Capacity.Driver.Validate | Ethernet/wizchip_conf.c:1398-1428 | Accepts an array if and only if every size is one the chip has and they total at most 16 KB. |
| Capacity.Driver.Init | Ethernet/wizchip_conf.c:1390-1566 | Refuses bad arrays before touching anything; otherwise one transaction. On success a direction's capacities agree with its registers if and only if its array was given. |
| Capacity.Driver.Configure | Ethernet/wizchip_conf.c:1430-1566 | Any failure inside the transaction leaves the chip faulted and every lock released. |
| Capacity.Driver.SetTxSize | Ethernet/W5500/w5500.c:99-129 | The capacity follows the register only after a read-back, and a failure leaves every capacity alone; from agreement, the capacities still agree if and only if the call succeeded or its write did not change the register. |
| Capacity.Driver.SetRxSize | Ethernet/W5500/w5500.c:99-134 | The same for the receive direction. |
| Capacity.Driver.Reconfigure | Ethernet/wizchip_conf.c:1255-1280 | Any run of successful initialisations, resets and size changes keeps every capacity equal to 1024 times its register. |
| Locks.DisciplinedCalls | Ethernet/wizchip_conf.c:1212-1229 | Every sequence of library calls takes locks only upwards in the order global, socket 0, socket 1 and so on, and ends with none held. |
| Locks.SomeoneEnabled | Ethernet/wizchip_conf.c:1212-1229 | In every reachable state, following who waits for whom ends at a thread that can move. |
| Locks.DeadlockFree | Ethernet/socket.c:500-510 | Any number of threads, any calls, any schedule: some unfinished thread can step, until all have finished and nothing is locked. |
| Locks.SchedulesEnd | Ethernet/wizchip_conf.c:1212-1229 | No schedule is longer than the work there is, so every maximal one finishes it. |
| OpenRace.RunInv | Ethernet/socket.c:498-610 | In every state of every run: the lock is exclusive, commands alternate between OPEN and CLOSE, whoever is past one has written it, the chip is on its way to what was asked last, and every winner has written an OPEN. |
| OpenRace.CloserSawOther | Ethernet/socket.c:523-534 | Derived from the guard: whoever has written CLOSE had read another status than CLOSED before it took the lock, and closed what the OPEN before had opened. |
| OpenRace.WinnerKeeps | Ethernet/socket.c:523-534 | A winner's socket is open and healthy until the next command, which is the CLOSE of a thread that had read another status than CLOSED. |
| OpenRace.AtMostOneWinner | Ethernet/socket.c:498-610 | While every thread that has read the status read CLOSED: at most one of any number of threads gets the number, no CLOSE was written, at most one OPEN, by the winner, whose socket stays open. |
| OpenRace.LoserWritesNothing | Ethernet/socket.c:524-534 | A thread that read CLOSED and holds the lock while the socket is open, not having opened it, is refused and writes nothing. |
| OpenRace.TakenOver | Ethernet/socket.c:523-534 | From every state with a winner, an open socket and a free lock, a thread that reads the status only then can close the socket and open it for itself. |
| OpenRace.TwoWinners | Ethernet/socket.c:498-611 | So there are runs with two winners, for any number of threads from two on. |
| Monitor.FaultedMeans | Ethernet/socket.c:93-108 | The socket counts as faulted if and only if a fault was recorded with no state reset after it. |
| Monitor.NoCommandWhileFaulted | Ethernet/socket.c:511-514 | In a good history no command is written to a faulted socket. |
| Monitor.SendsAccounted | Ethernet/socket.c:1346-1366 | Since the last reset, SENDs accepted equal outcomes reported, plus one exactly while a datagram is pending. |
| Monitor.OutcomeIsOwed | Ethernet/socket.c:1346-1366 | Every outcome settles the one SEND not yet reported: with the length accepted then, whoever asks, if that SEND succeeded, and with a timeout if it timed out, or was given up on a socket by then faulted. |
| Monitor.NothingWhilePending | Ethernet/socket.c:1346-1366 | While a SEND is unreported nothing is copied, sent or accepted. |
| Chip.ElapsedTwice | Ethernet/socket.c:152-162 | What the chip may do between two accesses composes over any number of accesses. |
| Chip.FreeOnlyGrows | Ethernet/W5500/w5500.c:137-172 | Whatever the chip does after a read, the free space is no less than before, and it is the size less the bytes not drained. |
| Chip.ReceivedOnlyGrows | Ethernet/W5500/w5500.c:181-216 | Until a RECV or reset is carried out, the received size is what has arrived and is not yet acknowledged, and only grows. |
| Chip.CopyInKeeps | Ethernet/W5500/w5500.c:225-241 | A payload within the free space is appended to what the chip has to send, and no byte not drained is overwritten; any other is marked as an overrun. |
| Chip.OverrunHits | Ethernet/socket.c:1451-1480 | A payload that does not fit, as MACRAW allows, lands on the oldest byte not yet drained with its first byte that does not fit. |
| Chip.CopyOutKeeps | Ethernet/W5500/w5500.c:243-260 | Bytes copied out are the next ones that arrived, unless more are asked for than have. |
| Chip.Device.Elapse | Ethernet/W5500/w5500.c:137-260 | The single moves of the chip, timeouts of a connection at any time included, are all allowed by the relation the proofs use. |
| SocketState.Undisturbed | Ethernet/socket.c:1038-1060 | One access inside a call on an open socket keeps driver and chip in agreement, and neither sends nor takes data. |
| SocketState.FreeHeld | Ethernet/W5500/w5500.c:137-172 | Two agreeing reads, whatever the chip does around them, show what was truly free, no more than is free now. |
| SocketState.FreeRound | Ethernet/W5500/w5500.c:137-172 | A round of reads that disagree has seen the chip drain, which bounds the loop. |
| SocketState.SendFits | Ethernet/socket.c:1038-1079 | A payload no longer than a sampled free space overruns nothing, whatever the chip does until it is copied. |
| SocketState.SendMoves | Ethernet/socket.c:1061-1079 | Copy, SEND and acceptance append exactly the data to what was ever sent and count one SEND; an event showing afterwards, none having shown before, is that SEND's own. |
| SocketState.TakeMoves | Ethernet/socket.c:1252-1262 | Copy, RECV and acceptance take exactly n bytes, and the chip knows it. |
| SocketState.StreamTakes | Ethernet/socket.c:1252-1262 | Copy, RECV and acceptance on a stream socket: the bytes copied are the next ones that arrived, and driver and chip still agree. |
| SocketState.StaleCleared | Ethernet/socket.c:1477-1480 | After clearing, no event shows and none can before the next SEND. |
| SocketState.DatagramOwed | Ethernet/socket.c:1501-1524 | An accepted SEND is owed: any event from now on is its own, and reception stays in step. |
| SocketState.DatagramSent | Ethernet/socket.c:1477-1518 | Clearing, copying, SEND and acceptance together: exactly this data sent, exactly one SEND more, and owed. |
| SocketState.Settles | Ethernet/socket.c:1346-1366 | The event taken ends the very SEND that was owed, after which none is outstanding. |
| SocketState.TakenSticks | Ethernet/socket.c:180-209 | A timeout event of a pending datagram taken by another call leaves it ended, pending, and without an event to show for it. |
| SocketState.StuckStays | Ethernet/socket.c:1346-1366 | Nothing the chip does on its own ends that. |
| Socket.Socket.constructor | Ethernet/socket.c:64-91 | The statics as the program starts agree with any state of a chip that has been given no command. |
| Socket.Socket.WriteCommand | Ethernet/socket.c:1073 | A command is given to the chip and recorded, and keeps the history good only on a healthy socket and, for SEND, with no datagram pending. |
| Socket.Socket.MarkFaulted | Ethernet/socket.c:152-162 | The socket is faulted and the fault recorded. |
| Socket.Socket.StateReset | Ethernet/socket.c:93-108 | All statics take their initial values and the reset is recorded. |
| Socket.Socket.WaitAccepted | Ethernet/socket.c:152-162 | At most 100000 polls; success means the command was taken; giving up faults the socket and means that the polls ran out or the true deadline came. |
| Socket.Socket.WaitStatus | Ethernet/socket.c:167-178 | The same bounds for a wait on the status register. |
| Socket.Socket.WaitDatagramAccepted | Ethernet/socket.c:180-209 | At most 100000 polls; ends early on a timeout event, which it clears, and looks once on a nonblocking socket; success only for a command taken; it faults the socket only when the polls ran out or the true deadline came. |
| Socket.Socket.ReadTxFree | Ethernet/W5500/w5500.c:137-172 | Ends; unless bytes were overrun, the value returned was truly held during the call and is no more than is free on return. |
| Socket.Socket.ReadRxSize | Ethernet/W5500/w5500.c:181-216 | Ends; with every read byte acknowledged, the value was truly held and no more than that is still to be read. |
| Socket.Socket.SendData | Ethernet/W5500/w5500.c:225-241 | Nothing for an empty payload, otherwise the bytes and the pointer; never while a datagram is pending. |
| Socket.Socket.ReceiveData | Ethernet/W5500/w5500.c:243-260 | Fills the buffer with the next n bytes that arrived and leaves the rest of the buffer alone. |
| Socket.Socket.CloseInternal | Ethernet/socket.c:613-690 | The statics are reset in every case, CLOSE is written exactly to a healthy socket that did not show CLOSED, and the socket is faulted afterwards exactly when the call timed out; the record grows by exactly that. |
| Socket.Socket.Close | Ethernet/socket.c:692-700 | The same under the socket's lock, released on every path, the record growing by exactly that. |
| Socket.Socket.DrawPort | Ethernet/socket.c:500-507 | Draws the next port under the global lock and never leaves the reserved end as the next one. |
| Socket.Socket.IssueOpen | Ethernet/socket.c:574-607 | Success means a fresh connection: nothing sent, nothing taken, fresh statics with the mode asked for; failure faults the socket. |
| Socket.Socket.OpenLocked | Ethernet/socket.c:510-607 | A faulted socket is refused untouched. |
| Socket.Socket.Open | Ethernet/socket.c:346-611 | Success returns the number, with acceptable flags and a fresh connection, OPEN and the reset being the last things recorded; a faulted socket is refused without a command. |
| Socket.Socket.LookForSent | Ethernet/socket.c:985-1018 | One look at the SEND before: it has ended, the connection has, or it is not known; only a timeout faults the socket. |
| Socket.Socket.AwaitSent | Ethernet/socket.c:985-1030 | Waiting for the SEND before neither sends nor takes data, and reports busy only on a nonblocking socket. |
| Socket.Socket.AwaitRoom | Ethernet/socket.c:1032-1060 | Success means that the length truly fits now. |
| Socket.Socket.PrepareStream | Ethernet/socket.c:980-1060 | Success means a connected socket, the SEND before settled, and room for this one; nothing sent or taken so far. |
| Socket.Socket.CopyAndSend | Ethernet/socket.c:1061-1079 | The copy and the SEND are made once each, in this order, and success means that the SEND was accepted. |
| Socket.Socket.SubmitStream | Ethernet/socket.c:1061-1079 | Success means that exactly the data was appended; failure faults the socket. |
| Socket.Socket.SendLocked | Ethernet/socket.c:959-1082 | The contract of send once the lock is held. |
| Socket.Socket.Send | Ethernet/socket.c:938-1086 | A positive result is the length cut to the buffer capacity, and exactly that prefix was appended to the bytes ever sent, by one copy and one SEND; otherwise, on a socket neither faulted nor closed, nothing was. Busy only if nonblocking or without a buffer. |
| Socket.Socket.AwaitData | Ethernet/socket.c:1143-1196 | Success means a size that has truly arrived and is unread. |
| Socket.Socket.TakeStream | Ethernet/socket.c:1252-1266 | The next bytes that arrived are copied and told to the chip, or the socket is faulted. |
| Socket.Socket.RecvLocked | Ethernet/socket.c:1108-1267 | The contract of recv once the lock is held. |
| Socket.Socket.Recv | Ethernet/socket.c:1087-1271 | A positive result hands over exactly the next bytes that arrived, and the chip knows them to be read; otherwise nothing was taken. |
| Socket.Socket.PollPending | Ethernet/socket.c:1346-1366 | On a pending datagram one look at the events: still pending and nothing changed, or how its own SEND ended: the length accepted then after SENDOK, a timeout after TIMEOUT; the record grows by exactly that outcome. |
| Socket.Socket.AwaitDatagramRoom | Ethernet/socket.c:1451-1469 | Success means that the datagram truly fits now. |
| Socket.Socket.PrepareDatagram | Ethernet/socket.c:1451-1476 | Outside MACRAW success means that the datagram truly fits; in MACRAW only that the socket was not closed, and what fitted at the call still does. |
| Socket.Socket.SubmitDatagram | Ethernet/socket.c:1477-1518 | Acceptance makes this SEND owed and its data sent; otherwise the socket is locally faulted, hence faulted. |
| Socket.Socket.GiveUpDatagram | Ethernet/socket.c:1512-1516 | A SEND never accepted leaves the socket locally faulted. |
| Socket.Socket.ClearEnd | Ethernet/socket.c:1529-1547 | The event cleared is that of the SEND owed, which ended as the event says, and none is outstanding afterwards. |
| Socket.Socket.GiveUpOutcome | Ethernet/socket.c:1551-1554 | A SEND given up faults the socket before the timeout is reported, and is recorded as neither sent nor timed out. |
| Socket.Socket.AwaitOutcome | Ethernet/socket.c:1526-1556 | At most 100000 polls; the length is returned exactly for its own SEND having ended in SENDOK and a timeout for TIMEOUT; it gives up, and faults the socket, only when the polls ran out or the time allowed has truly passed. |
| Socket.Socket.CheckDatagram | Ethernet/socket.c:1368-1446 | Accepts only datagram modes, with an address and a port unless the mode is MACRAW. |
| Socket.Socket.TransmitDatagram | Ethernet/socket.c:1446-1564 | Success: exactly this datagram was sent and this very SEND has ended in SENDOK. Nonblocking: pending with its length. Every way out adds exactly its events to the record. |
| Socket.Socket.SendToLocked | Ethernet/socket.c:1304-1566 | The contract of sendto once the lock is held. |
| Socket.Socket.SendTo | Ethernet/socket.c:1304-1568 | By the state found: untouched when faulted; no copy and no SEND when pending; otherwise at most one accounted datagram, which overruns nothing unless it is MACRAW and longer than the free space. A positive result only for a SEND that ended in SENDOK. The record grows by exactly copy, SEND, acceptance and outcome, as far as the call got. Stuck datagrams stay pending. |
| Socket.Socket.CopyAndTake | Ethernet/socket.c:1738-1744 | The copy and the RECV are made once each, in this order; success means that the RECV was accepted. |
| Socket.Socket.TakeBytes | Ethernet/socket.c:1738-1744 | From a settled state the next n bytes are copied whatever the result, and success hands exactly them over; otherwise the RECV was last seen not accepted, on a nonblocking socket, or with a timeout taken, or with the socket faulted. |
| Socket.Socket.LookForPacket | Ethernet/socket.c:1666-1684 | One look at size and status takes nothing; in step, a nonzero size means that a packet has truly arrived. |
| Socket.Socket.AwaitPacket | Ethernet/socket.c:1662-1692 | Success means a nonzero size, and, in step, that a packet has truly arrived. |
| Socket.Socket.OpenDatagram | Ethernet/socket.c:1737-1840 | In step, success decodes the next packet's source and length and stands at its payload; the socket is closed for its length exactly when a MACRAW frame exceeds 1514 bytes; otherwise the header was copied and not counted. |
| Socket.Socket.DecodeHeader | Ethernet/socket.c:1754-1840 | The header bytes give the packet's source and length, and the driver is in step behind them. |
| Socket.Socket.HandOver | Ethernet/socket.c:1766-1797 | Hands over the next bytes of the packet in progress, as many as asked for or as remain, and stays in step; a RECV not accepted loses the place, unless there was nothing to copy. |
| Socket.Socket.SetRemained | Ethernet/socket.c:1946-1961 | Sets what remains of the packet; the flag for it is set when something remains and never cleared. |
| Socket.Socket.HandOverNothing | Ethernet/socket.c:1881-1960 | An IPRAW packet without payload: nothing is copied, and the stale size is subtracted from a remainder of zero. |
| Socket.Socket.ReadOn | Ethernet/socket.c:1766-1797 | A call on a packet in progress: one step of the abstract receiver, or the piece was copied and not counted. |
| Socket.Socket.ReadOpened | Ethernet/socket.c:1766-1960 | The rest of a call that has just opened a packet, header included: one step of the abstract receiver, or out of step in exactly the ways of RecvFrom. |
| Socket.Socket.ReadFirst | Ethernet/socket.c:1737-1960 | The same from the header on. |
| Socket.Socket.RecvFromLocked | Ethernet/socket.c:1630-1970 | The contract of recvfrom once the lock is held. |
| Socket.Socket.RecvFrom | Ethernet/socket.c:1599-1973 | On a socket in step: a piece handed over is one step of the abstract receiver, stream bytes taken equal header plus piece, and it stays in step; a refused call, an empty poll included, has taken nothing and stays in step; it falls out of step exactly by a header or piece copied with its RECV not accepted, an oversized frame or an empty IPRAW packet. |
| Socket.Socket.Perform | Ethernet/socket.c:715-725 | Exactly one command is written; it is accepted or the socket is faulted. |
| Socket.Socket.ListenNow | Ethernet/socket.c:715-731 | LISTEN and its status within one deadline, or the socket is faulted; exactly that is recorded. |
| Socket.Socket.ListenLocked | Ethernet/socket.c:708-731 | The contract of listen once the lock is held. |
| Socket.Socket.Listen | Ethernet/socket.c:702-734 | A faulted socket gets no LISTEN; success leaves the data of the connection alone. |
| Socket.Socket.AwaitStatus | Ethernet/socket.c:850-866 | The wait without a poll cap ends because the clock moves on; a timeout event is cleared and faults the socket if and only if disconnecting; running out faults it, and only once the time allowed has truly passed. |
| Socket.Socket.CommandThenConfig | Ethernet/socket.c:820-848 | The command is written before the time configuration is looked at; success means that it was accepted. |
| Socket.Socket.ConnectLocked | Ethernet/socket.c:789-870 | The contract of connect once the lock is held. |
| Socket.Socket.Connect | Ethernet/socket.c:753-872 | Success requires a port and an address that is neither zero nor broadcast, and leaves the data alone; a faulted socket gets no CONNECT. |
| Socket.Socket.DisconnectLocked | Ethernet/socket.c:883-932 | The contract of disconnect once the lock is held. |
| Socket.Socket.DisconnectStream | Ethernet/socket.c:897-931 | DISCON at most once, then a wait for CLOSED; success leaves the data alone; the record grows by at most one DISCON and, exactly if the socket is faulted afterwards, one fault. |
| Socket.Socket.AwaitClosed | Ethernet/socket.c:908-931 | The wait at the end of a disconnect moves no data and writes no command. |
| Socket.Socket.Disconnect | Ethernet/socket.c:874-935 | Success leaves the data alone; a faulted socket gets no DISCON. |
| Socket.Socket.SetIoMode | Ethernet/socket.c:1976-2008 | Succeeds exactly for a valid number, a healthy socket and one of the two modes, and changes nothing else. |
| Socket.Socket.GetTxState | Ethernet/socket.c:1983-1989 | Answers on a faulted socket too; a local fault reported implies that the socket is faulted. |
| Socket.Socket.KeepAlive | Ethernet/socket.c:2102-2134 | Success leaves the data alone; a faulted socket gets no command. |
| Socket.Socket.AwaitKeep | Ethernet/socket.c:2121-2133 | At most 100000 polls; a timeout event is cleared and does not fault the socket; it is faulted only when the polls ran out or the true deadline came. |
| Socket.Socket.Forget | Ethernet/socket.c:110-114 | Resets all statics of the number and records it; only then does a faulted socket count as healthy. |
| Datagrams.PacketPlace | Ethernet/socket.c:1737-1764 | Each packet lies directly behind those before it. |
| Datagrams.NextPacket | Ethernet/socket.c:1662-1692 | Between packets, a nonzero size means that the whole next packet is there, header first. |
| Datagrams.HeaderRead | Ethernet/socket.c:1754-1764 | The header bytes taken decode to the packet's source and payload length. |
| Datagrams.RestArrives | Ethernet/socket.c:1766-1797 | The bytes that come next in the stream are the rest of the packet in progress. |
| Datagrams.PieceRead | Ethernet/socket.c:1766-1797 | A piece taken is the front of that rest, and the framing is kept. |
| Datagrams.RefusedExactly | Ethernet/socket.c:1630-1692 | A call that leaves the socket open is refused if and only if it has taken no byte from the stream. |
| Datagrams.HeaderUncounted | Ethernet/socket.c:1738-1744 | Behind a header copied and not counted there is a packet boundary where the driver believes one if and only if the packet has no payload. |
| Datagrams.PieceUncounted | Ethernet/socket.c:1940-1946 | Behind a piece copied and not counted no packet boundary lies where the driver believes one to be. |
| Datagrams.StaleRemainder | Ethernet/socket.c:1870-1946 | The stale size subtracted from a remainder of zero leaves one that ends at no packet boundary. |
| Datagrams.BusyLosesPlace | Ethernet/socket.c:1738-1744 | A concrete UDP socket with one byte arrived: after the busy return no packet begins where the driver stands, and the header it reads next reaches past everything that has arrived. |
| Datagrams.CallsRun | Ethernet/socket.c:1599-1973 | Any run of completed calls, with packets arriving in between, is a run of the abstract receiver over all the packets. |
| Datagrams.DatagramsReassemble | Ethernet/socket.c:1599-1973 | Over any run with any lengths, the pieces regroup into exactly the payloads of the packets opened, split at the packet boundaries, up to the rest of the last one. |
| Streams.RunAdds | Ethernet/socket.c:938-1271 | Over any run of calls on one connection, what was ever sent is the concatenation of the accepted data, and what was taken is a prefix of what arrived. |
| Streams.TwoQueues | Ethernet/socket.c:938-1271 | Accepted data equals drained bytes followed by the transmit ring's contents; arrived bytes equal those received followed by the receive ring's contents; the pointers account for what is held. |
| Runs.Run | Ethernet/socket.c:346-2134 | Any sequence of calls: the record only grows, its commands are those the chip was given, and it is accounted for in the sense of the next row after every call. |
| Runs.WholeRun | Ethernet/socket.c:64-108 | Over a whole run: no command to a faulted socket; nothing copied, sent or accepted while a SEND is unreported; every outcome says how the one SEND owed ended; after every call SENDs accepted equal outcomes reported plus the one pending, faulted means a fault with no reset since, and a local fault is a fault. |
| Runs.AskInVain | Ethernet/socket.c:1346-1366 | A datagram whose timeout another call has taken is never reported: every later sendto answers busy and changes nothing. |
| Loopback.Relay | Application/loopback/loopback.c:54-67 | The inner loop ends; it relays a prefix, all of it unless the socket is nonblocking or has no transmit buffer; a send error closes the socket. |
| Loopback.Echo | Application/loopback/loopback.c:28-68 | What was taken is sent back in order; nothing is lost on a blocking socket with a transmit buffer. |
| Loopback.LoopbackTcps | Application/loopback/loopback.c:18-104 | Without an error, a call starts a connection afresh or relays what it took. |
| Loopback.Serve | Application/loopback/loopback.c:18-104 | Over any number of calls up to the first error, everything sent on the current connection is everything taken on it, in order. |
| DnsParser.ReadLength | Internet/DNS/dns.c:159-174 | Reads the length governing a segment, following at most one pointer, and counts the bytes the name occupies where it starts. |
| DnsParser.CopyLabel | Internet/DNS/dns.c:190-193 | Appends the label and a dot. |
| DnsParser.ParseName | Internet/DNS/dns.c:150-207 | Ends on every memory, pointer cycles included, and computes the text and the occupied length, or fails; its closing NUL is written behind the buffer if and only if the text is as long as the buffer. |
| DnsParser.ParseMeetsFormat | Internet/DNS/dns.c:150-207 | Every RFC 1035 name in memory is read exactly, or rejected if and only if a pointer aims at a pointer or the dotted form is too long. |
| DnsParser.AcceptedIsName | Internet/DNS/dns.c:150-207 | Whatever is accepted is a name of the wire format, read exactly. |
| DnsParser.PointerToPointerRejected | Internet/DNS/dns.c:166-174 | A pointer to a pointer, which RFC 1035 allows, is rejected: a concrete memory. |
| DnsParser.ParseQuestion | Internet/DNS/dns.c:217-233 | Steps over a name, a type and a class, with a local buffer of exactly the length announced; reports the write behind it. |
| DnsParser.ParseAnswer | Internet/DNS/dns.c:244-334 | Cursor and address output of one answer, by record type, and whether one of its names is written behind the local buffer. |
| DnsParser.AnswerWalkMeetsFormat | Internet/DNS/dns.c:244-334 | The cursor ends where RDLENGTH says, though it is never read, and fails if and only if a name of the record does not fit. |
| DnsParser.ParseReply | Internet/DNS/dns.c:347-424 | Header fields, return value and address of a whole reply, and whether any name read is written behind the local buffer. |
| DnsParser.QuestionsMeetFormat | Internet/DNS/dns.c:388-396 | The walk over well-formed questions ends behind the last, or fails if and only if a name does not fit. |
| DnsParser.AnswersMeetFormat | Internet/DNS/dns.c:399-407 | The walk over well-formed answers ends behind the last, with the address of the last A record. |
| DnsParser.ReplyMeetsFormat | Internet/DNS/dns.c:347-424 | A well-formed reply gives the address of its last A record and the verdict of RCODE; -1 if and only if a name does not fit. |
| DnsParser.OverrunsExactly | Internet/DNS/dns.c:197-220 | A name RFC 1035 allows is written behind a local buffer if and only if its dotted form has exactly 192 characters and no pointer aims at a pointer. |
| DnsParser.ReplyOverrunsExactly | Internet/DNS/dns.c:347-424 | Reading a well-formed reply writes behind a local buffer if and only if such a name is among those read, that is, all names before it fit. |
| DnsParser.LongReplyOverruns | Internet/DNS/dns.c:217-220 | A concrete reply, one question with three labels of 63 bytes, does so and is answered as if nothing had happened. |
| DnsQuery.Resolver.PutHeader | Internet/DNS/dns.c:445-454 | A new message id, the shifted opcode with recursion desired, one question, nothing else. |
| DnsQuery.Resolver.PutName | Internet/DNS/dns.c:456-483 | Writes the name component by component, up to the first empty one. |
| DnsQuery.Resolver.MakeQuery | Internet/DNS/dns.c:437-489 | Prints exactly the query and returns its length. |
| DnsQuery.PrintedName | Internet/DNS/dns.c:456-483 | A printed name is a pointer-free name of the wire format of the printed length. |
| DnsQuery.PrintedText | Internet/DNS/dns.c:456-483 | Its dotted form is the original with exactly one trailing dot, or shorter when a label is empty. |
| DnsQuery.QueryRoundTrip | Internet/DNS/dns.c:437-489 | Parsing a printed query gives the name back, with one trailing dot, if and only if it has no empty label or is the root; the question ends where the message does. |
| DnsQuery.QueryFields | Internet/DNS/dns.c:445-454 | The id, recursion desired and one question come back; the opcode does, in a message marked a query, if and only if it is below 16. |
| DnsQuery.QueryIsWellFormed | Internet/DNS/dns.c:437-489 | With labels of at most 63 bytes the printed question is one of RFC 1035. |

## Left out

- Bus, SPI and QSPI framing, chip select, callback registration, PHY and MDIO, interrupt masks and debug output: plumbing under the register accesses.
- Failing bus accesses in the socket layer: the size samplers may fail in the model, and so may every access of `Capacity`; status, command and event reads in `Socket` always deliver.
- Status values: the status register shows anything at any time, which is more than the chip does and covers it.
- Port, address, TTL and other registers that only carry parameters to the chip.
- Null pointers as arguments, except the source address of `recvfrom`.
- One socket number at a time in `Socket`, over its slice of the static arrays; several sockets at once are the subject of `Locks`, `OpenRace` and `W5100`.
- Buffers of 0 KB on the chip in `Chip`: a socket without a transmit buffer appears as one whose cached capacity is zero.
- 64-bit overflow of the timeline, and the copy of the timeout that `wizchip_deadline_abs` keeps when there is no time source.
- The hook that waits between polls.
- W5100S, W5200 and W6x00 buffer code and the IPv6 branches: the same engines again.
- Byte order switching (MR_FS), MACRAW and IPRAW on the W5300, and the W5300 in the locking model.
- getsockopt, peeksockmsg and the interrupt options of ctlsocket: no harder property. The connect event, which the echo server only clears.
- DNS_run, its retries and its timer.
- TXT and unknown records in DNS answers, whose RDATA the code does not step over.
- DHCP, SNMP, TFTP, HTTP, AAC.
- The sendto branch that loses its time source between SEND and the wait: the time configuration is fixed during a call.
- Socket.Socket.RecvFrom: says nothing about the bytes handed over by calls on a socket that has fallen out of step with its packets.
- Socket.Socket.AwaitStatus: assumes that the clock has moved on between two looks at it, since the code has no poll cap there.
- Socket.Socket.ReadTxFree: says nothing about the value once bytes not yet drained have been overwritten, which only MACRAW sends can do.
- Socket.Socket.ReadRxSize: says nothing about the value when bytes have been read that the chip was not told of.
- DnsParser.ParseName: the byte behind a buffer of the announced length is not part of the model; that it is written is reported, and the rest of the call goes on as if it hit nothing.
- DnsQuery.Resolver.MakeQuery: requires the name to be shorter than the local copy and the buffer to hold the query, neither of which the code checks.
- W5100.W5100.SendData: requires the data to be no longer than the ring, which the C function does not check but its callers ensure.
- W5100.W5100.RecvData: requires a length of at most the ring, which the C function does not check but its callers ensure.
- W5100.W5100.CopyIn: requires a length of at most the region, likewise.
- W5100.W5100.CopyOut: requires a length of at most the region, likewise.
- W5300.Socket.ReceiveFrom: leaves out the RECV commands and the waits of the call, which on this chip move no byte of the stream, and is called with a packet there to read.
- W5300.Transmitter.SendData: the free space and the SEND command of the call are not modelled on this chip.
- Capacity.Driver.Init: the arrays have one entry per socket, as the interface asks.
- OpenRace.AtMostOneWinner: assumes that the chip does not open or close the socket on its own, and that no thread is in another call on it.

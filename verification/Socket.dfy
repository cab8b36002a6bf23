/**
 The socket layer of Ethernet/socket.c (W5500 build): one socket number, that is, the slice of
 every per-socket static array at that number, over the chip of module Chip and the clock of module
 Clock.  Between any two register accesses the chip and the clock move as they please.

 Every call keeps Valid(): the history of the socket is a good one in the sense of module Monitor,
 and the driver's state agrees with the chip's.  What each call adds is in its own contract.
 */
module Socket {
  import opened Bytes
  import opened Chip
  import opened Clock
  import opened Codes
  import opened Datagrams
  import opened SocketState
  import opened Locks
  import M = Monitor

  class Socket {
    const sn: nat
    const dev: Device
    const clock: TimeSource
    var s: Statics
    /** Cached buffer capacities, and the library's state and timeouts. */
    var txMax: word
    var rxMax: word
    var ready: bool
    var commandTimeout: nat
    var operationTimeout: nat
    var anyPort: word
    ghost var history: seq<M.Event>
    ghost var inSync: bool
    ghost var begun: nat
    ghost var locks: seq<Action>

    ghost predicate Valid()
      reads this, dev, clock
    {
      ChipOk(dev.c) && clock.Valid() && Recorded(s, history) && Logged(history, dev.c.written)
      && Linked(s, dev.c, inSync, begun)
    }

    predicate ConfigValid()
      reads this
    {
      clock.active && commandTimeout > 0 && operationTimeout > 0
    }

    /** The statics as the program starts, over any chip. */
    constructor (sn: nat, dev: Device, clock: TimeSource)
      requires ChipOk(dev.c) && dev.c.written == [] && clock.Valid()
      ensures Valid() && this.dev == dev && this.clock == clock && this.sn == sn
      ensures s == FRESH && history == []
    {
      this.sn, this.dev, this.clock := sn, dev, clock;
      s, txMax, rxMax, ready := FRESH, 0, 0, false;
      commandTimeout, operationTimeout, anyPort := 10000, 2000000, FIRST_ANY_PORT;
      history, inSync, begun, locks := [], false, 0, [];
    }

    // ----- Register access

    /** A status read: anything the chip may show. */
    method ReadStatus() returns (status: byte)
      requires ChipOk(dev.c)
      modifies dev
      ensures dev.c.written == old(dev.c.written)
      ensures ChipOk(dev.c) && Elapsed(old(dev.c), dev.c)
    {
      dev.Elapse();
      status := *;
    }

    method ReadCommand() returns (cr: byte)
      requires ChipOk(dev.c)
      modifies dev
      ensures dev.c.written == old(dev.c.written)
      ensures ChipOk(dev.c) && Elapsed(old(dev.c), dev.c) && cr == dev.c.cr
    {
      dev.Elapse();
      cr := dev.c.cr;
    }

    method ReadEvents() returns (sendOk: bool, timeout: bool)
      requires ChipOk(dev.c)
      modifies dev
      ensures dev.c.written == old(dev.c.written)
      ensures ChipOk(dev.c) && Elapsed(old(dev.c), dev.c) && sendOk == dev.c.sendOk && timeout == dev.c.timeout
    {
      dev.Elapse();
      sendOk, timeout := dev.c.sendOk, dev.c.timeout;
    }

    /** Writes ones to the interrupt register: clears the events named. */
    method ClearEvents(sendOk: bool, timeout: bool) returns (ghost at: Chip)
      requires ChipOk(dev.c)
      modifies dev
      ensures dev.c.written == old(dev.c.written)
      ensures ChipOk(dev.c) && Elapsed(old(dev.c), at) && dev.c == Cleared(at, sendOk, timeout)
    {
      dev.Elapse();
      at := dev.c;
      dev.c := Cleared(dev.c, sendOk, timeout);
    }

    /** Writes the command register.  A history stays good only if the socket is not faulted, and
        not waiting for a datagram when the command is SEND. */
    method WriteCommand(code: byte) returns (ghost at: Chip)
      requires ChipOk(dev.c) && code != 0
      requires Recorded(s, history) && Logged(history, dev.c.written)
      requires s.health.Healthy? && (code == CR_SEND ==> !s.txState.Pending?)
      modifies dev, this`history
      ensures ChipOk(dev.c) && Elapsed(old(dev.c), at) && dev.c == Commanded(at, code)
      ensures dev.c.written == old(dev.c.written) + [code]
      ensures Recorded(s, history) && Logged(history, dev.c.written) && history == old(history) + [M.Command(code)]
    {
      dev.Elapse();
      at := dev.c;
      dev.c := Commanded(dev.c, code);
      M.RunAppend(history, M.Command(code));
      M.CommandsAppend(history, M.Command(code));
      history := history + [M.Command(code)];
    }

    /** Health set to FAULTED. */
    method MarkFaulted()
      requires Recorded(s, history) && Logged(history, dev.c.written)
      modifies this`s, this`history
      ensures s == old(s).(health := Faulted)
      ensures Recorded(s, history) && Logged(history, dev.c.written) && history == old(history) + [M.Fault]
    {
      s := s.(health := Faulted);
      M.RunAppend(history, M.Fault);
      M.CommandsAppend(history, M.Fault);
      history := history + [M.Fault];
    }

    /** sock_state_reset. */
    method StateReset()
      requires Recorded(s, history) && Logged(history, dev.c.written)
      modifies this`s, this`history
      ensures s == FRESH
      ensures Recorded(s, history) && Logged(history, dev.c.written) && history == old(history) + [M.Reset]
    {
      s := FRESH;
      M.RunAppend(history, M.Reset);
      M.CommandsAppend(history, M.Reset);
      history := history + [M.Reset];
    }

    method Lock()
      modifies this`locks
      ensures locks == old(locks) + [Acquire(SocketLock(sn))]
    {
      locks := locks + [Acquire(SocketLock(sn))];
    }

    method Unlock()
      modifies this`locks
      ensures locks == old(locks) + [Release(SocketLock(sn))]
    {
      locks := locks + [Release(SocketLock(sn))];
    }

    // ----- Bounded waits

    /** wait_cr_accepted: until the chip has taken the command.  At most POLL_MAX polls, whatever
        the clock does; and giving up, which faults the socket, means that the polls ran out or
        that the true time of the deadline has come. */
    method WaitAccepted(deadline: nat) returns (r: int, ghost polls: nat)
      requires ChipOk(dev.c) && clock.Valid() && clock.active && Recorded(s, history) && Logged(history, dev.c.written)
      modifies dev, clock, this`s, this`history
      ensures clock.Valid() && clock.origin == old(clock.origin) && old(clock.time) <= clock.time
      ensures ChipOk(dev.c) && Elapsed(old(dev.c), dev.c) && Recorded(s, history) && Logged(history, dev.c.written)
      ensures r == SOCK_OK || r == SOCKERR_TIMEOUT
      ensures r == SOCK_OK ==> dev.c.cr == 0 && s == old(s) && history == old(history)
      ensures r != SOCK_OK ==> s == old(s).(health := Faulted) && history == old(history) + [M.Fault]
      ensures polls <= POLL_MAX
      ensures r != SOCK_OK ==> polls == POLL_MAX || clock.time >= Min(deadline + clock.origin, FOREVER)
    {
      hide ChipOk, Flow, Restart, Recorded, Logged, InStep, Elapsed;
      var poll := clock.StartPoll();
      ghost var start := dev.c;
      polls := 0;
      var cr := ReadCommand();
      while cr != 0
        invariant dev.c.written == old(dev.c.written)
        invariant clock.Valid() && clock.origin == old(clock.origin) && old(clock.time) <= clock.time
        invariant ChipOk(dev.c) && Elapsed(start, dev.c) && cr == dev.c.cr
        invariant polls == poll.polls < POLL_MAX && poll.timeout == FOREVER
        invariant s == old(s) && history == old(history)
        decreases POLL_MAX - polls
      {
        var expired;
        expired, poll := clock.PollExpired(poll, deadline);
        polls := polls + 1;
        if expired {
          MarkFaulted();
          return SOCKERR_TIMEOUT, polls;
        }
        ghost var before := dev.c;
        cr := ReadCommand();
        ElapsedTwice(start, before, dev.c);
      }
      return SOCK_OK, polls;
    }

    /** wait_sr_reached: until the status register shows the wanted status, bounded likewise. */
    method WaitStatus(wanted: byte, deadline: nat) returns (r: int, ghost polls: nat)
      requires ChipOk(dev.c) && clock.Valid() && clock.active && Recorded(s, history) && Logged(history, dev.c.written)
      modifies dev, clock, this`s, this`history
      ensures clock.Valid() && clock.origin == old(clock.origin) && old(clock.time) <= clock.time
      ensures ChipOk(dev.c) && Elapsed(old(dev.c), dev.c) && Recorded(s, history) && Logged(history, dev.c.written)
      ensures r == SOCK_OK || r == SOCKERR_TIMEOUT
      ensures r == SOCK_OK ==> s == old(s) && history == old(history)
      ensures r != SOCK_OK ==> s == old(s).(health := Faulted) && history == old(history) + [M.Fault]
      ensures polls <= POLL_MAX
      ensures r != SOCK_OK ==> polls == POLL_MAX || clock.time >= Min(deadline + clock.origin, FOREVER)
    {
      hide ChipOk, Flow, Restart, Recorded, Logged, InStep, Elapsed;
      var poll := clock.StartPoll();
      ghost var start := dev.c;
      polls := 0;
      var status := ReadStatus();
      while status != wanted
        invariant dev.c.written == old(dev.c.written)
        invariant clock.Valid() && clock.origin == old(clock.origin) && old(clock.time) <= clock.time
        invariant ChipOk(dev.c) && Elapsed(start, dev.c)
        invariant polls == poll.polls < POLL_MAX && poll.timeout == FOREVER
        invariant s == old(s) && history == old(history)
        decreases POLL_MAX - polls
      {
        var expired;
        expired, poll := clock.PollExpired(poll, deadline);
        polls := polls + 1;
        if expired {
          MarkFaulted();
          return SOCKERR_TIMEOUT, polls;
        }
        ghost var before := dev.c;
        status := ReadStatus();
        ElapsedTwice(start, before, dev.c);
      }
      return SOCK_OK, polls;
    }

    /** wait_datagram_cr_accepted: a timeout event ends it early, and a nonblocking socket looks
        only once. */
    method WaitDatagramAccepted(nonblocking: bool)
        returns (r: int, ghost late: Chip, ghost at: Chip, ghost polls: nat)
      requires ChipOk(dev.c) && clock.Valid() && clock.active
      requires s.health.Healthy? && Recorded(s, history) && Logged(history, dev.c.written)
      modifies dev, clock, this`s, this`history
      ensures clock.Valid() && ChipOk(dev.c) && Recorded(s, history) && Logged(history, dev.c.written)
      ensures r == SOCK_OK || r == SOCKERR_TIMEOUT || r == SOCK_BUSY
      ensures Elapsed(old(dev.c), late) && Elapsed(late, at) && (r == SOCK_OK <==> late.cr == 0)
      ensures r == SOCK_OK ==> dev.c == at && at.cr == 0 && s == old(s)
      ensures r == SOCK_BUSY ==> dev.c == at && nonblocking && s == old(s)
      ensures r == SOCKERR_TIMEOUT ==>
                || (s == old(s) && at.timeout && dev.c == Cleared(at, false, true))
                || (s == old(s).(health := Faulted) && dev.c == at && !nonblocking
                    && (polls == POLL_MAX || clock.time >= Min(old(clock.time) + commandTimeout, FOREVER)))
      ensures history == if s == old(s) then old(history) else old(history) + [M.Fault]
      ensures polls <= POLL_MAX
    {
      hide ChipOk, Flow, Restart, Recorded, Logged, InStep, Elapsed, Cleared;
      ghost var start, origin := dev.c, clock.origin;
      polls := 0;
      var cr := ReadCommand();
      late := dev.c;
      if cr == 0 {
        ElapsedSelf(late);
        return SOCK_OK, late, late, polls;
      }
      var timeout;
      timeout, at := TakeTimeout();
      if timeout {
        return SOCKERR_TIMEOUT, late, at, polls;
      }
      if nonblocking {
        return SOCK_BUSY, late, at, polls;
      }
      var deadline := clock.Deadline(commandTimeout);
      var poll := clock.StartPoll();
      ElapsedTwice(start, late, at);
      cr := ReadCommand();
      ElapsedTwice(start, at, dev.c);
      while cr != 0
        invariant dev.c.written == old(dev.c.written)
        invariant clock.Valid() && ChipOk(dev.c) && Elapsed(start, dev.c) && cr == dev.c.cr
        invariant polls == poll.polls < POLL_MAX && poll.timeout == FOREVER
        invariant clock.origin == origin && deadline + origin >= old(clock.time) + commandTimeout
        invariant s == old(s) && history == old(history)
        decreases POLL_MAX - polls
      {
        late := dev.c;
        timeout, at := TakeTimeout();
        if timeout {
          return SOCKERR_TIMEOUT, late, at, polls;
        }
        var expired;
        expired, poll := clock.PollExpired(poll, deadline);
        polls := polls + 1;
        if expired {
          MarkFaulted();
          return SOCKERR_TIMEOUT, late, at, polls;
        }
        ElapsedTwice(start, late, at);
        cr := ReadCommand();
        ElapsedTwice(start, at, dev.c);
      }
      late := dev.c;
      ElapsedSelf(late);
      return SOCK_OK, late, late, polls;
    }

    /** Looks for the timeout event, and clears it if it shows. */
    method TakeTimeout() returns (timeout: bool, ghost at: Chip)
      requires ChipOk(dev.c)
      modifies dev
      ensures ChipOk(dev.c) && dev.c.written == old(dev.c.written)
      ensures Elapsed(old(dev.c), at)
      ensures if timeout then at.timeout && dev.c == Cleared(at, false, true) else dev.c == at
    {
      hide ChipOk, Elapsed, Cleared;
      ghost var start := dev.c;
      var sendOk;
      sendOk, timeout := ReadEvents();
      at := dev.c;
      if timeout {
        ghost var seen := at;
        at := ClearEvents(false, true);
        EventStays(seen, at);
        ElapsedTwice(start, seen, at);
      }
    }

    // ----- Sampling the size registers

    /** A 16-bit register in one burst of two bytes, between which the chip may move. */
    method TornFree() returns (w: word, ghost high: Chip)
      requires ChipOk(dev.c)
      modifies dev
      ensures dev.c.written == old(dev.c.written)
      ensures Elapsed(old(dev.c), high) && Elapsed(high, dev.c)
      ensures w == Word(High(TxFree(high)), Low(TxFree(dev.c)))
    {
      dev.Elapse();
      high := dev.c;
      var h := High(TxFree(dev.c));
      dev.Elapse();
      w := Word(h, Low(TxFree(dev.c)));
    }

    method TornSize() returns (w: word, ghost high: Chip)
      requires ChipOk(dev.c)
      modifies dev
      ensures dev.c.written == old(dev.c.written)
      ensures Elapsed(old(dev.c), high) && Elapsed(high, dev.c)
      ensures w == Word(High(RxSize(high)), Low(RxSize(dev.c)))
    {
      dev.Elapse();
      high := dev.c;
      var h := High(RxSize(dev.c));
      dev.Elapse();
      w := Word(h, Low(RxSize(dev.c)));
    }

    /** getSn_TX_FSR_stable: two agreeing reads out of two or three in a row.  Where nothing has been
        overrun, the value returned is one the register truly held during the call, and no more than
        it holds now. */
    method ReadTxFree() returns (r: int, v: word, ghost held: Chip)
      requires ChipOk(dev.c) && clock.Valid()
      modifies dev, clock
      ensures dev.c.written == old(dev.c.written)
      ensures clock.Valid() && Elapsed(old(dev.c), dev.c) && r <= 0
      ensures r == 0 && !old(dev.c.overrun) ==>
                Elapsed(old(dev.c), held) && Elapsed(held, dev.c) && v == TxFree(held) <= TxFree(dev.c)
    {
      hide ChipOk, Flow, Restart, InStep, Word, High, Low, TxFree;
      ghost var start := dev.c;
      v, held := 0, start;
      var deadline := clock.Deadline(POLL_MAX);
      if deadline == 0 {
        deadline := POLL_MAX;
      }
      ElapsedSelf(start);
      while true
        invariant dev.c.written == old(dev.c.written)
        invariant clock.Valid() && Elapsed(start, dev.c)
        decreases dev.c.tx.Used()
      {
        ghost var round := dev.c;
        var ok := *;
        if !ok {
          return SOCKERR_IO, 0, start;
        }
        var first, h1 := TornFree();
        ghost var l1 := dev.c;
        var second, h2 := TornFree();
        ghost var l2 := dev.c;
        ElapsedTwice(start, round, h1);
        ElapsedTwice(start, h1, l1);
        ElapsedTwice(start, l1, h2);
        ElapsedTwice(start, h2, l2);
        if first == second {
          FreeHeld(start, h1, l1, h2, l2);
          return 0, second, l1;
        }
        var third, h3 := TornFree();
        ghost var l3 := dev.c;
        ElapsedTwice(l2, h3, l3);
        ElapsedTwice(start, l2, l3);
        if second == third {
          FreeHeld(start, h2, l2, h3, l3);
          return 0, third, l2;
        }
        FreeRound(round, h1, l1, h2, l2, l3);
        var late := clock.Expired(deadline);
        if late {
          return SOCKERR_DEADLINE, 0, start;
        }
      }
    }

    /** getSn_RX_RSR_stable.  Where the chip knows of every byte read, the value returned was truly
        held during the call, and no more than that has still to be read. */
    method ReadRxSize() returns (r: int, v: word, ghost held: Chip)
      requires ChipOk(dev.c) && clock.Valid()
      modifies dev, clock
      ensures dev.c.written == old(dev.c.written)
      ensures clock.Valid() && Elapsed(old(dev.c), dev.c) && r <= 0
      ensures r == 0 && Settled(old(dev.c)) ==>
                Elapsed(old(dev.c), held) && Elapsed(held, dev.c)
                && v == |held.arrived| - held.taken <= |dev.c.arrived| - dev.c.taken
    {
      hide ChipOk, Flow, Restart, InStep, Word, High, Low, RxSize, Settled, NotAfter;
      ghost var start := dev.c;
      v, held := 0, start;
      var deadline := clock.Deadline(POLL_MAX);
      if deadline == 0 {
        deadline := POLL_MAX;
      }
      ElapsedSelf(start);
      while true
        invariant dev.c.written == old(dev.c.written)
        invariant clock.Valid() && Elapsed(start, dev.c)
        decreases Stage(dev.c), Room(dev.c)
      {
        ghost var round := dev.c;
        var ok := *;
        if !ok {
          return SOCKERR_IO, 0, start;
        }
        var first, h1 := TornSize();
        ghost var l1 := dev.c;
        var second, h2 := TornSize();
        ghost var l2 := dev.c;
        ElapsedTwice(round, h1, l1);
        ElapsedTwice(l1, h2, l2);
        ElapsedTwice(start, round, l1);
        ElapsedTwice(start, l1, l2);
        if first == second {
          ElapsedTwice(start, round, h1);
          SizeHeld(start, h1, l1, h2, l2);
          return 0, second, l1;
        }
        var third, h3 := TornSize();
        ghost var l3 := dev.c;
        ElapsedTwice(l2, h3, l3);
        ElapsedTwice(start, l2, l3);
        if second == third {
          ElapsedTwice(start, l1, h2);
          SizeHeld(start, h2, l2, h3, l3);
          return 0, third, l2;
        }
        RoundMoves(round, h1, l1, h2, l2, l3);
        var late := clock.Expired(deadline);
        if late {
          return SOCKERR_DEADLINE, 0, start;
        }
      }
    }

    // ----- Copies

    /** wiz_send_data: nothing for an empty payload, otherwise the bytes and the write pointer. */
    method SendData(data: seq<byte>) returns (ghost at: Chip)
      requires ChipOk(dev.c)
      requires Recorded(s, history) && Logged(history, dev.c.written) && !s.txState.Pending?
      modifies dev, this`history
      ensures ChipOk(dev.c) && Elapsed(old(dev.c), at) && at.tx.Size() > 0
      ensures dev.c == Filled(at, data)
      ensures Recorded(s, history) && Logged(history, dev.c.written)
      ensures history == old(history) + if data == [] then [] else [M.Copied(|data|)]
    {
      ghost var start := dev.c;
      dev.Elapse();
      at := dev.c;
      if |data| == 0 {
        return;
      }
      CopyInKeeps(at, data);
      dev.c := CopyIn(dev.c, data);
      M.RunAppend(history, M.Copied(|data|));
      M.CommandsAppend(history, M.Copied(|data|));
      history := history + [M.Copied(|data|)];
    }

    /** wiz_recv_data: the next n bytes of the receive ring, and the read pointer. */
    method ReceiveData(buf: array<byte>, n: nat) returns (ghost at: Chip)
      requires ChipOk(dev.c) && n <= buf.Length
      modifies dev, buf
      ensures dev.c.written == old(dev.c.written)
      ensures ChipOk(dev.c) && Elapsed(old(dev.c), at)
      ensures dev.c == if n == 0 then at else CopyOut(at, n)
      ensures !CopyOut(at, n).torn ==> buf[..n] == at.arrived[at.taken..at.taken + n]
      ensures buf[n..] == old(buf[n..])
    {
      dev.Elapse();
      at := dev.c;
      CopyOutKeeps(at, n);
      if n == 0 {
        return;
      }
      var bytes := dev.c.rx.Peek(n);
      hide ChipOk, Elapsed;
      var i := 0;
      while i < n
        invariant 0 <= i <= n && dev.c == at
        invariant buf[..i] == bytes[..i]
        invariant buf[n..] == old(buf[n..])
      {
        buf[i] := bytes[i];
        i := i + 1;
      }
      dev.c := CopyOut(dev.c, n);
    }

    // ----- close

    /** close_internal, the socket's lock being held.  Unless the socket is already faulted or shows
        CLOSED, one CLOSE is written; in every case the statics are reset, and the socket is faulted
        afterwards exactly when the call timed out. */
    method CloseInternal(inherited: Option<nat>) returns (r: int, ghost shown: byte)
      requires Valid() && (inherited.Some? ==> ConfigValid())
      modifies this`s, this`history, dev, clock
      ensures Valid() && (r == SOCK_OK || r == SOCKERR_TIMEOUT)
      ensures s == if r == SOCKERR_TIMEOUT then FRESH.(health := Faulted) else FRESH
      ensures history == old(history) + CloseEvents(inherited.Some? || ConfigValid(), old(s.health), shown, r)
    {
      hide ChipOk, Flow, Restart, InStep, Recorded, Logged, Linked, Elapsed;
      r, shown := SOCK_OK, SR_CLOSED;
      if inherited.None? && !ConfigValid() {
        r := SOCKERR_TIMEOUT;
      } else if s.health.Healthy? {
        var status := ReadStatus();
        shown := status;
        if status != SR_CLOSED {
          var deadline;
          if inherited.Some? {
            deadline := inherited.value;
          } else {
            deadline := clock.Deadline(commandTimeout);
          }
          r := CloseOnChip(deadline);
        }
      }
      StateReset();
      if r == SOCKERR_TIMEOUT {
        MarkFaulted();
        FaultedIsLinked(s, dev.c, inSync, begun);
      } else {
        FreshIsLinked(dev.c, inSync, begun);
      }
    }

    /** CLOSE, its acceptance, and the wait for the status. */
    method CloseOnChip(deadline: nat) returns (r: int)
      requires ChipOk(dev.c) && clock.Valid() && clock.active
      requires s.health.Healthy? && Recorded(s, history) && Logged(history, dev.c.written)
      modifies this`s, this`history, dev, clock
      ensures ChipOk(dev.c) && clock.Valid() && Recorded(s, history) && Logged(history, dev.c.written)
      ensures r == SOCK_OK || r == SOCKERR_TIMEOUT
      ensures r == SOCK_OK ==> history == old(history) + [M.Command(CR_CLOSE)]
      ensures r != SOCK_OK ==> history == old(history) + [M.Command(CR_CLOSE)] + [M.Fault]
    {
      hide ChipOk, InStep, Recorded, Logged, Elapsed;
      ghost var at := WriteCommand(CR_CLOSE);
      ghost var polls;
      r, polls := WaitAccepted(deadline);
      if r == SOCK_OK {
        at := ClearEvents(true, true);
        r, polls := WaitStatus(SR_CLOSED, deadline);
      }
    }

    /** close. */
    method Close() returns (r: int, ghost shown: byte)
      requires Valid()
      modifies this`s, this`history, this`locks, dev, clock
      ensures Valid()
      ensures if sn < SOCKETS then
                locks == old(locks) + SocketCall(sn)
                && s == (if r == SOCKERR_TIMEOUT then FRESH.(health := Faulted) else FRESH)
                && history == old(history) + CloseEvents(old(ConfigValid()), old(s.health), shown, r)
              else r == SOCKERR_SOCKNUM && s == old(s) && history == old(history) && locks == old(locks)
    {
      hide ChipOk, InStep, Recorded, Logged, Linked, CloseEvents;
      shown := SR_CLOSED;
      if sn >= SOCKETS {
        return SOCKERR_SOCKNUM, shown;
      }
      Lock();
      r, shown := CloseInternal(None);
      Unlock();
    }

    // ----- socket

    /** The next port for a caller that names none, drawn under the global lock. */
    method DrawPort() returns (port: word)
      modifies this`anyPort, this`locks
      ensures locks == old(locks) + Configuration()
      ensures port == old(anyPort)
      ensures anyPort == if port + 1 == END_ANY_PORT then FIRST_ANY_PORT else Wrap(port + 1)
    {
      locks := locks + [Acquire(GLOBAL)];
      port := anyPort;
      anyPort := Wrap(anyPort + 1);
      if anyPort == END_ANY_PORT {
        anyPort := FIRST_ANY_PORT;
      }
      locks := locks + [Release(GLOBAL)];
    }

    /** Writes the mode register (the port register written with it is not modelled). */
    method WriteMode(mode: byte) returns (ghost at: Chip)
      requires ChipOk(dev.c)
      modifies dev
      ensures dev.c.written == old(dev.c.written)
      ensures ChipOk(dev.c) && Elapsed(old(dev.c), at) && dev.c == at.(mr := mode)
    {
      dev.Elapse();
      at := dev.c;
      dev.c := dev.c.(mr := mode);
    }

    /** socket, from the lock on.  statusBefore is what the status register showed before it. */
    method OpenLocked(protocol: byte, flag: byte, statusBefore: byte) returns (r: int)
      requires Valid() && sn < SOCKETS
      modifies this`s, this`history, this`inSync, this`begun, dev, clock
      ensures Valid()
      ensures r >= 0 ==>
                r == sn && inSync && begun == 0 && dev.c.sent == [] && dev.c.taken == 0
                && s == FRESH.(mode := ModeOf(protocol, flag), nonblocking := And(flag, SF_NONBLOCK) != 0)
      ensures old(s.health.Faulted?) ==> r == SOCKERR_NOTREADY && s == old(s) && history == old(history)
      ensures old(history) <= history
      ensures r >= 0 ==> |history| >= 2 && history[|history| - 2..] == [M.Command(CR_OPEN), M.Reset]
    {
      hide ChipOk, InStep, Recorded, Logged, ModeOf, And, Or;
      if s.health.Faulted? {
        return SOCKERR_NOTREADY;
      }
      if !ConfigValid() {
        return SOCKERR_TIMEOUT;
      }
      var deadline := clock.Deadline(commandTimeout);
      ghost var start := dev.c;
      var status := ReadStatus();
      LinkedElapses(s, start, dev.c, inSync, begun);
      if status != SR_CLOSED {
        if statusBefore == SR_CLOSED {
          return SOCKERR_SOCKSTATUS;
        }
        ghost var shown;
        r, shown := CloseInternal(Some(deadline));
        if r != SOCK_OK {
          return;
        }
      }
      if protocol % 16 == MR_TCP {
        var noAddress := *;
        if noAddress {
          return SOCKERR_SOCKINIT;
        }
      }
      ghost var noted := history;
      r := IssueOpen(protocol, flag, deadline);
      LastTwo(noted, M.Command(CR_OPEN), M.Reset);
    }

    /** Mode register, OPEN, and the two waits; success starts fresh statics. */
    method IssueOpen(protocol: byte, flag: byte, deadline: nat) returns (r: int)
      requires Valid() && s.health.Healthy? && clock.active
      modifies this`s, this`history, this`inSync, this`begun, dev, clock
      ensures Valid() && (r == sn || r == SOCKERR_TIMEOUT)
      ensures r >= 0 ==> history == old(history) + [M.Command(CR_OPEN)] + [M.Reset]
      ensures r >= 0 ==>
                r == sn && inSync && begun == 0 && dev.c.sent == [] && dev.c.taken == 0
                && s == FRESH.(mode := ModeOf(protocol, flag), nonblocking := And(flag, SF_NONBLOCK) != 0)
      ensures r < 0 ==> history == old(history) + [M.Command(CR_OPEN)] + [M.Fault]
    {
      hide ChipOk, InStep, Recorded, Logged, ModeOf, And, Linked, Flow, EventStep, Fixed;
      var mode := ModeOf(protocol, flag);
      ghost var at := WriteMode(mode);
      ghost var configured := dev.c;
      at := WriteCommand(CR_OPEN);
      ModeKept(configured, at);
      ghost var asked, polls := dev.c, 0;
      r, polls := WaitAccepted(deadline);
      if r != SOCK_OK {
        FaultedIsLinked(s, dev.c, inSync, begun);
        return;
      }
      OpenObeyed(asked, dev.c);
      ghost var reopened := dev.c;
      r, polls := WaitStatus(OpenStatus(protocol), deadline);
      if r != SOCK_OK {
        FaultedIsLinked(s, dev.c, inSync, begun);
        return;
      }
      StillFresh(reopened, dev.c);
      StateReset();
      ghost var reset := s;
      inSync, begun := true, 0;
      s := s.(mode := mode, nonblocking := And(flag, SF_NONBLOCK) != 0);
      SameRecord(reset, s, history);
      NewlyOpen(s, dev.c);
      return sn;
    }

    /** socket. */
    method Open(protocol: byte, port: word, flag: byte) returns (r: int)
      requires Valid()
      modifies this`s, this`history, this`inSync, this`begun, this`anyPort, this`locks, dev, clock
      ensures Valid()
      ensures locks == old(locks) || locks == old(locks) + OpenCall(sn, port == 0)
      ensures r >= 0 ==>
                r == sn < SOCKETS && inSync && begun == 0 && dev.c.sent == [] && dev.c.taken == 0
                && s == FRESH.(mode := ModeOf(protocol, flag), nonblocking := And(flag, SF_NONBLOCK) != 0)
                && FlagsOk(protocol, flag) && OpenStatus(protocol) != SR_CLOSED
      ensures old(s.health.Faulted?) ==> r < 0 && s == old(s) && history == old(history)
      ensures old(history) <= history
      ensures r >= 0 ==> |history| >= 2 && history[|history| - 2..] == [M.Command(CR_OPEN), M.Reset]
    {
      hide ChipOk, InStep, Recorded, Logged, ModeOf, And, Or, Elapsed, Linked;
      if sn >= SOCKETS {
        return SOCKERR_SOCKNUM;
      }
      if OpenStatus(protocol) == SR_CLOSED || (sn != 0 && protocol % 16 == MR_MACRAW) {
        return SOCKERR_SOCKMODE;
      }
      if !FlagsOk(protocol, flag) {
        return SOCKERR_SOCKFLAG;
      }
      if !ready {
        return SOCKERR_NOTREADY;
      }
      ghost var start := dev.c;
      var statusBefore := ReadStatus();
      LinkedElapses(s, start, dev.c, inSync, begun);
      var localPort := port;
      if localPort == 0 {
        localPort := DrawPort();
      }
      ghost var before := locks;
      Lock();
      r := OpenLocked(protocol, flag, statusBefore);
      Unlock();
      assert locks == before + SocketCall(sn);
    }

    // ----- send

    /** Clears an event on a stream socket. */
    method ClearStreamEvents(sendOk: bool, timeout: bool)
      requires Valid() && s.health.Healthy? && Tcp(s.mode)
      modifies dev
      ensures Valid() && Quiet(old(dev.c), dev.c)
      ensures (sendOk ==> !dev.c.sendOk) && (timeout ==> !dev.c.timeout)
    {
      hide ChipOk, Flow, Restart, InStep, Recorded, Logged, Linked, Quiet, Tcp, Datagram, Cleared;
      ghost var start := dev.c;
      ModesApart(s.mode);
      QuietSelf(start);
      ghost var at := ClearEvents(sendOk, timeout);
      Undisturbed(start, start, at, s, inSync, begun);
      ClearedShows(at, sendOk, timeout);
      ClearedKeeps(start, at, sendOk, timeout, s, inSync, begun);
    }

    /** One look at the SEND before: it has ended, it never will, or it is not known yet. */
    method LookForSent() returns (known: bool, r: int)
      requires Valid() && s.health.Healthy? && Tcp(s.mode)
      modifies this`s, this`history, dev
      ensures Valid() && Quiet(old(dev.c), dev.c) && (known ==> r == SOCK_OK || r < 0)
      ensures !known ==> s == old(s) && history == old(history)
      ensures known && r == SOCK_OK ==> s == old(s).(isSending := false) && !dev.c.sendOk
      ensures s == old(s).(isSending := s.isSending, health := s.health)
      ensures history == if s.health.Faulted? then old(history) + [M.Fault] else old(history)
    {
      hide ChipOk, InStep, Recorded, Logged, Linked, Quiet, Tcp, Datagram, Cleared, Elapsed;
      ghost var start, was := dev.c, s;
      ModesApart(s.mode);
      QuietSelf(start);
      known, r := true, SOCK_OK;
      var sendOk, timeout := ReadEvents();
      Undisturbed(start, start, dev.c, s, inSync, begun);
      ghost var before := dev.c;
      if sendOk {
        ClearStreamEvents(true, false);
        QuietTwice(start, before, dev.c);
        s := s.(isSending := false);
        SameLinks(was, s, history, dev.c, inSync, begun);
        return;
      }
      if timeout {
        ClearStreamEvents(false, true);
        QuietTwice(start, before, dev.c);
        MarkFaulted();
        FaultedIsLinked(s, dev.c, inSync, begun);
        return true, SOCKERR_TIMEOUT;
      }
      var status := ReadStatus();
      Undisturbed(start, before, dev.c, s, inSync, begun);
      if status != SR_ESTABLISHED && status != SR_CLOSE_WAIT {
        s := s.(isSending := false);
        SameLinks(was, s, history, dev.c, inSync, begun);
        return true, if status == SR_CLOSED then SOCKERR_SOCKCLOSED else SOCKERR_SOCKSTATUS;
      }
      known := false;
    }

    /** Waits until the SEND before has ended. */
    method AwaitSent() returns (r: int)
      requires Valid() && s.health.Healthy? && Tcp(s.mode) && clock.active
      modifies this`s, this`history, dev, clock
      ensures Valid() && Quiet(old(dev.c), dev.c) && (r == SOCK_OK || r <= 0)
      ensures r == SOCK_OK ==> s == old(s).(isSending := false) && history == old(history) && !dev.c.sendOk
      ensures s == old(s).(isSending := s.isSending, health := s.health)
      ensures r == SOCK_BUSY ==> s.nonblocking && s == old(s)
      ensures history == if s.health.Faulted? then old(history) + [M.Fault] else old(history)
    {
      hide ChipOk, InStep, Recorded, Logged, Linked, Quiet, Tcp, Elapsed;
      ghost var start, was, noted := dev.c, s, history;
      var deadline := clock.Deadline(operationTimeout);
      var poll := clock.StartPoll();
      QuietSelf(start);
      while true
        invariant Valid() && Quiet(start, dev.c) && s == was && history == noted
        invariant poll.polls < POLL_MAX
        decreases POLL_MAX - poll.polls
      {
        ghost var before := dev.c;
        var known;
        known, r := LookForSent();
        QuietTwice(start, before, dev.c);
        if known {
          return;
        }
        if s.nonblocking {
          return SOCK_BUSY;
        }
        var expired;
        expired, poll := clock.PollExpired(poll, deadline);
        if expired {
          MarkFaulted();
          FaultedIsLinked(s, dev.c, inSync, begun);
          return SOCKERR_TIMEOUT;
        }
      }
    }

    /** Waits until len bytes are free; a closed socket is closed for good. */
    method AwaitRoom(len: nat) returns (r: int)
      requires Valid() && s.health.Healthy? && Tcp(s.mode) && ConfigValid()
      modifies this`s, this`history, dev, clock
      ensures Valid() && (r == SOCK_OK || r <= 0)
      ensures r == SOCK_OK ==> s == old(s) && history == old(history)
      ensures r == SOCK_OK ==> Quiet(old(dev.c), dev.c) && len <= TxFree(dev.c)
      ensures r != SOCK_OK ==> (s == old(s) && Quiet(old(dev.c), dev.c)) || s.mode == 0
      ensures r == SOCK_BUSY ==> s.nonblocking && s == old(s) && Quiet(old(dev.c), dev.c)
      ensures old(history) <= history
    {
      hide ChipOk, Flow, Restart, InStep, Recorded, Logged, Linked, Quiet, TxFree, Tcp, Datagram, Elapsed;
      ghost var start, was, noted := dev.c, s, history;
      ModesApart(s.mode);
      var deadline := clock.Deadline(operationTimeout);
      var poll := clock.StartPoll();
      QuietSelf(start);
      while true
        invariant Valid() && Quiet(start, dev.c) && s == was && history == noted
        invariant poll.polls < POLL_MAX
        decreases POLL_MAX - poll.polls
      {
        ghost var before := dev.c;
        StreamSettled(s, before, inSync, begun);
        var free;
        ghost var held;
        r, free, held := ReadTxFree();
        Undisturbed(start, before, dev.c, s, inSync, begun);
        if r != 0 {
          return;
        }
        before := dev.c;
        var status := ReadStatus();
        Undisturbed(start, before, dev.c, s, inSync, begun);
        StreamSettled(s, before, inSync, begun);
        FreeOnlyGrows(before, dev.c);
        if status != SR_ESTABLISHED && status != SR_CLOSE_WAIT {
          if status == SR_CLOSED {
            var closed, shown := CloseInternal(None);
          }
          return SOCKERR_SOCKSTATUS;
        }
        if s.nonblocking && len > free {
          return SOCK_BUSY;
        }
        if len <= free {
          return SOCK_OK;
        }
        var expired;
        expired, poll := clock.PollExpired(poll, deadline);
        if expired {
          return SOCKERR_TIMEOUT;
        }
      }
    }

    /** Copy, SEND, and the wait for its acceptance. */
    method CopyAndSend(data: seq<byte>) returns (r: int, ghost copied: Chip, ghost at: Chip)
      requires ChipOk(dev.c) && clock.Valid() && clock.active
      requires Recorded(s, history) && Logged(history, dev.c.written) && s.health.Healthy? && !s.txState.Pending?
      modifies this`s, this`history, dev, clock
      ensures ChipOk(dev.c) && clock.Valid() && Recorded(s, history) && Logged(history, dev.c.written)
      ensures Elapsed(old(dev.c), copied) && copied.tx.Size() > 0
      ensures Elapsed(Filled(copied, data), at)
      ensures Elapsed(Commanded(at, CR_SEND), dev.c)
      ensures r == SOCK_OK || r == SOCKERR_TIMEOUT
      ensures r == SOCK_OK ==> dev.c.cr == 0 && s == old(s) && history == old(history) + Submitted(data)
      ensures r != SOCK_OK ==> s == old(s).(health := Faulted) && history == old(history) + Submitted(data) + [M.Fault]
    {
      hide ChipOk, Flow, Restart, InStep, Recorded, Logged, TxFree, Filled, Elapsed;
      copied := SendData(data);
      at := WriteCommand(CR_SEND);
      SubmittedIs(old(history), data);
      ghost var polls := 0;
      var deadline := clock.Deadline(commandTimeout);
      r, polls := WaitAccepted(deadline);
    }

    /** The copy, the SEND and its acceptance. */
    method SubmitStream(data: seq<byte>) returns (r: int)
      requires Valid() && s.health.Healthy? && Tcp(s.mode) && clock.active
      requires |data| <= TxFree(dev.c)
      modifies this`s, this`history, dev, clock
      ensures Valid() && (r == SOCK_OK || r == SOCKERR_TIMEOUT)
      ensures r == SOCK_OK ==> s == old(s) && Moved(old(dev.c), dev.c, data) && dev.c.cr == 0
      ensures r == SOCK_OK ==> history == old(history) + Submitted(data)
      ensures r != SOCK_OK ==> s.health.Faulted?
      ensures old(history) <= history
    {
      ghost var start := dev.c;
      ModesApart(s.mode);
      assert start.cr != CR_SEND && !ResetsSocket(start.cr) && s.txState.Idle? && !start.overrun;
      hide ChipOk, Flow, Restart, InStep, Recorded, Logged, Linked, Moved, TxFree, Elapsed, Filled;
      ghost var copied, at;
      r, copied, at := CopyAndSend(data);
      if r == SOCK_OK {
        SendFits(start, copied, data, at, dev.c);
        SendMoves(start, copied, data, at, dev.c);
        StreamLinked(start, dev.c, data, s, inSync, begun);
      } else {
        FaultedIsLinked(s, dev.c, inSync, begun);
      }
    }

    /** The status of the connection, the SEND before, and the room for this one. */
    method PrepareStream(len: nat) returns (r: int)
      requires Valid() && s.health.Healthy? && Tcp(s.mode) && ConfigValid()
      modifies this`s, this`history, dev, clock
      ensures Valid() && (r == SOCK_OK || r <= 0)
      ensures r == SOCK_OK ==> s == old(s).(isSending := false) && history == old(history)
      ensures r == SOCK_OK ==> Quiet(old(dev.c), dev.c) && len <= TxFree(dev.c)
      ensures r != SOCK_OK ==>
                (s == old(s).(isSending := s.isSending, health := s.health) && Quiet(old(dev.c), dev.c)) || s.mode == 0
      ensures r == SOCK_BUSY ==> s.nonblocking && s == old(s).(isSending := s.isSending) && Quiet(old(dev.c), dev.c)
      ensures old(history) <= history
    {
      hide ChipOk, Flow, Restart, InStep, Recorded, Logged, Linked, Quiet, TxFree, Tcp, Framed, PacketsOk,
           AllWellFormed, Encoded, Elapsed;
      ghost var start := dev.c;
      QuietSelf(start);
      ModesApart(s.mode);
      var status := ReadStatus();
      Undisturbed(start, start, dev.c, s, inSync, begun);
      if status != SR_ESTABLISHED && status != SR_CLOSE_WAIT {
        return SOCKERR_SOCKSTATUS;
      }
      ghost var before := dev.c;
      if s.isSending {
        r := AwaitSent();
        QuietTwice(start, before, dev.c);
        if r != SOCK_OK {
          return;
        }
      }
      before := dev.c;
      r := AwaitRoom(len);
      if r == SOCK_OK || s.mode != 0 {
        QuietTwice(start, before, dev.c);
      }
    }

    method SendLocked(data: seq<byte>) returns (r: int)
      requires Valid() && 0 < |data| < 0x1_0000
      modifies this`s, this`history, dev, clock
      ensures Valid()
      ensures r > 0 ==> r == Min(|data|, txMax) && s == old(s).(isSending := true)
                        && Moved(old(dev.c), dev.c, data[..r])
                        && history == old(history) + Submitted(data[..r]) && dev.c.cr == 0
      ensures r == 0 ==> s == old(s).(isSending := s.isSending) && Quiet(old(dev.c), dev.c)
      ensures r <= 0 && s.health.Healthy? && s.mode == old(s.mode) != 0 ==> Quiet(old(dev.c), dev.c)
      ensures r == SOCK_BUSY ==> s.nonblocking || txMax == 0
      ensures old(s.health.Faulted?) ==> r == SOCKERR_IO && s == old(s) && history == old(history)
      ensures old(history) <= history
    {
      hide ChipOk, Flow, Restart, InStep, Recorded, Logged, Linked, Moved, Quiet, TxFree, Tcp;
      ghost var start := dev.c;
      QuietSelf(start);
      if s.health.Faulted? {
        return SOCKERR_IO;
      }
      if !ConfigValid() {
        return SOCKERR_TIMEOUT;
      }
      if !Tcp(s.mode) {
        return SOCKERR_SOCKMODE;
      }
      ModesApart(s.mode);
      var len := Min(|data|, txMax);
      r := PrepareStream(len);
      if r != SOCK_OK {
        return;
      }
      ghost var before, calm := dev.c, s;
      StreamSettled(s, before, inSync, begun);
      r := SubmitStream(data[..len]);
      if r != SOCK_OK {
        return;
      }
      QuietMoves(start, before, dev.c, data[..len]);
      StreamSettled(calm, dev.c, inSync, begun);
      QuietOverrun(start, before);
      MovedNothing(start, dev.c, data[..len]);
      s := s.(isSending := true);
      SameLinks(calm, s, history, dev.c, inSync, begun);
      return len;
    }

    /** send: on success, a prefix of the data, as long as the transmit buffer allows, was appended
        to what was ever sent; nothing not yet drained was overwritten, which is part of Valid().
        Otherwise, unless the socket was faulted or closed, nothing was appended. */
    method Send(buf: array<byte>, off: nat, len: nat) returns (r: int)
      requires Valid() && off + len <= buf.Length && len < 0x1_0000
      modifies this`s, this`history, this`locks, dev, clock
      ensures Valid()
      ensures r > 0 ==> r == Min(len, txMax) && s == old(s).(isSending := true)
                        && Moved(old(dev.c), dev.c, buf[off..off + r])
                        && history == old(history) + Submitted(buf[off..off + r]) && dev.c.cr == 0
      ensures r == 0 ==> s == old(s).(isSending := s.isSending) && Quiet(old(dev.c), dev.c)
      ensures r <= 0 && s.health.Healthy? && s.mode == old(s.mode) != 0 ==> Quiet(old(dev.c), dev.c)
      ensures r == SOCK_BUSY ==> len == 0 || s.nonblocking || txMax == 0
      ensures locks == old(locks) || locks == old(locks) + SocketCall(sn)
      ensures old(s.health.Faulted?) ==> r <= 0 && s == old(s) && history == old(history)
      ensures old(history) <= history
    {
      QuietSelf(dev.c);
      if len == 0 {
        return 0;
      }
      if sn >= SOCKETS {
        return SOCKERR_SOCKNUM;
      }
      if !ready {
        return SOCKERR_NOTREADY;
      }
      hide ChipOk, Recorded, Logged, Linked, Moved, Quiet, InStep;
      Lock();
      r := SendLocked(buf[off..off + len]);
      Unlock();
      if r > 0 {
        assert buf[off..off + len][..r] == buf[off..off + r];
      }
    }

    // ----- recv

    /** Waits for received bytes; a connection the peer has ended, with nothing left in either
        direction, or any other status, closes the socket. */
    method AwaitData() returns (r: int, size: word)
      requires Valid() && s.health.Healthy? && Tcp(s.mode) && ConfigValid()
      modifies this`s, this`history, dev, clock
      ensures Valid() && (r == SOCK_OK || r <= 0)
      ensures r == SOCK_OK ==> s == old(s) && Quiet(old(dev.c), dev.c) && 0 < size <= |dev.c.arrived| - dev.c.taken
      ensures r != SOCK_OK ==> (s == old(s) && Quiet(old(dev.c), dev.c)) || s.mode == 0
      ensures r == SOCK_BUSY ==> s.nonblocking && s == old(s) && Quiet(old(dev.c), dev.c)
      ensures old(history) <= history
    {
      hide ChipOk, Flow, Restart, InStep, Recorded, Logged, Linked, Quiet, Settled, Tcp, TxFree, Elapsed;
      ghost var start, was, noted := dev.c, s, history;
      ModesApart(s.mode);
      var deadline := clock.Deadline(operationTimeout);
      var poll := clock.StartPoll();
      QuietSelf(start);
      while true
        invariant Valid() && Quiet(start, dev.c) && s == was && history == noted
        invariant poll.polls < POLL_MAX
        decreases POLL_MAX - poll.polls
      {
        ghost var before, held := dev.c, dev.c;
        StreamSettled(s, before, inSync, begun);
        r, size, held := ReadRxSize();
        Undisturbed(start, before, dev.c, s, inSync, begun);
        if r != 0 {
          return;
        }
        before := dev.c;
        var status := ReadStatus();
        Undisturbed(start, before, dev.c, s, inSync, begun);
        UnreadGrows(s, before, dev.c, inSync, begun);
        if status != SR_ESTABLISHED && status != SR_CLOSE_WAIT {
          var closed, shown := CloseInternal(None);
          return SOCKERR_SOCKSTATUS, 0;
        }
        if size != 0 {
          return SOCK_OK, size;
        }
        if status == SR_CLOSE_WAIT {
          before := dev.c;
          var free;
          r, free, held := ReadTxFree();
          Undisturbed(start, before, dev.c, s, inSync, begun);
          if r != 0 {
            return;
          }
          if free == txMax {
            var closed, shown := CloseInternal(None);
            return SOCKERR_SOCKSTATUS, 0;
          }
        } else if s.nonblocking {
          return SOCK_BUSY, 0;
        }
        var expired;
        expired, poll := clock.PollExpired(poll, deadline);
        if expired {
          return SOCKERR_TIMEOUT, 0;
        }
      }
    }

    method RecvLocked(buf: array<byte>, len: nat) returns (r: int)
      requires Valid() && 0 < len < 0x1_0000 && len <= buf.Length
      modifies this`s, this`history, dev, clock, buf
      ensures Valid()
      ensures r > 0 ==> r <= Min(len, rxMax) && s == old(s) && Took(old(dev.c), dev.c, r)
                        && buf[..r] == dev.c.arrived[old(dev.c.taken)..dev.c.taken]
      ensures r == 0 ==> s == old(s) && Quiet(old(dev.c), dev.c)
      ensures r <= 0 && s.health.Healthy? && s.mode == old(s.mode) != 0 ==> Quiet(old(dev.c), dev.c)
      ensures r == SOCK_BUSY ==> s.nonblocking || rxMax == 0
      ensures old(s.health.Faulted?) ==> r == SOCKERR_IO && s == old(s) && history == old(history)
      ensures old(history) <= history
    {
      hide ChipOk, Flow, Restart, InStep, Recorded, Logged, Linked, Took, Quiet, Settled, Framed, PacketsOk,
           RxOk, TxOk, EventsOk, AllWellFormed, Encoded, EventStep, CommandStep, Fixed;
      ghost var start := dev.c;
      QuietSelf(start);
      if s.health.Faulted? {
        return SOCKERR_IO;
      }
      if !ConfigValid() {
        return SOCKERR_TIMEOUT;
      }
      if !Tcp(s.mode) {
        return SOCKERR_SOCKMODE;
      }
      ModesApart(s.mode);
      var size;
      r, size := AwaitData();
      if r != SOCK_OK {
        return;
      }
      var n := Min(Min(len, rxMax), size);
      ghost var before := dev.c;
      StreamSettled(s, before, inSync, begun);
      r := TakeStream(buf, n);
      if r != SOCK_OK {
        return;
      }
      QuietTakes(start, before, dev.c, n);
      return n;
    }

    /** The copy, the RECV and its acceptance. */
    method TakeStream(buf: array<byte>, n: nat) returns (r: int)
      requires Valid() && s.health.Healthy? && Tcp(s.mode) && clock.active
      requires n <= |dev.c.arrived| - dev.c.taken && n <= buf.Length
      modifies this`s, this`history, dev, clock, buf
      ensures Valid() && (r == SOCK_OK || r == SOCKERR_TIMEOUT)
      ensures r == SOCK_OK ==> s == old(s) && Took(old(dev.c), dev.c, n)
                               && buf[..n] == dev.c.arrived[old(dev.c.taken)..dev.c.taken]
      ensures r != SOCK_OK ==> s.health.Faulted?
      ensures old(history) <= history
    {
      hide ChipOk, InStep, Recorded, Logged, Linked, Took, Settled, Elapsed, Tcp, Commanded, CopyOut;
      ghost var start := dev.c;
      StreamHealthy(s, history, start, inSync, begun);
      ghost var copied, at;
      r, copied, at := CopyAndTell(buf, n);
      if r == SOCK_OK {
        StreamTakes(start, copied, n, at, dev.c, s, inSync, begun);
      } else {
        FaultedIsLinked(s, dev.c, inSync, begun);
      }
    }

    method CopyAndTell(buf: array<byte>, n: nat) returns (r: int, ghost copied: Chip, ghost at: Chip)
      requires ChipOk(dev.c) && clock.Valid() && clock.active && n <= buf.Length
      requires s.health.Healthy? && Recorded(s, history) && Logged(history, dev.c.written)
      modifies this`s, this`history, dev, clock, buf
      ensures ChipOk(dev.c) && clock.Valid() && Recorded(s, history) && Logged(history, dev.c.written)
      ensures Elapsed(old(dev.c), copied)
      ensures Elapsed(if n == 0 then copied else CopyOut(copied, n), at)
      ensures Elapsed(Commanded(at, CR_RECV), dev.c)
      ensures !CopyOut(copied, n).torn ==> buf[..n] == copied.arrived[copied.taken..copied.taken + n]
      ensures r == SOCK_OK || r == SOCKERR_TIMEOUT
      ensures r == SOCK_OK ==> dev.c.cr == 0 && s == old(s)
      ensures r != SOCK_OK ==> s == old(s).(health := Faulted)
      ensures old(history) <= history
    {
      hide ChipOk, InStep, Recorded, Logged, Elapsed, Commanded;
      copied := ReceiveData(buf, n);
      at := WriteCommand(CR_RECV);
      ghost var polls := 0;
      var deadline := clock.Deadline(commandTimeout);
      r, polls := WaitAccepted(deadline);
    }

    /** recv: on success, the bytes handed over are the next ones that arrived, and the chip knows
        them to be read; otherwise, unless the socket was faulted or closed, none was taken. */
    method Recv(buf: array<byte>, len: nat) returns (r: int)
      requires Valid() && len <= buf.Length && len < 0x1_0000
      modifies this`s, this`history, this`locks, dev, clock, buf
      ensures Valid()
      ensures r > 0 ==> r <= Min(len, rxMax) && s == old(s) && Took(old(dev.c), dev.c, r)
                        && buf[..r] == dev.c.arrived[old(dev.c.taken)..dev.c.taken]
      ensures r == 0 ==> s == old(s) && Quiet(old(dev.c), dev.c)
      ensures r <= 0 && s.health.Healthy? && s.mode == old(s.mode) != 0 ==> Quiet(old(dev.c), dev.c)
      ensures r == SOCK_BUSY ==> len == 0 || s.nonblocking || rxMax == 0
      ensures locks == old(locks) || locks == old(locks) + SocketCall(sn)
      ensures old(s.health.Faulted?) ==> r <= 0 && s == old(s) && history == old(history)
      ensures old(history) <= history
    {
      QuietSelf(dev.c);
      if len == 0 {
        return 0;
      }
      if sn >= SOCKETS {
        return SOCKERR_SOCKNUM;
      }
      if !ready {
        return SOCKERR_NOTREADY;
      }
      hide ChipOk, Recorded, Logged, Linked, Took, Quiet, InStep;
      Lock();
      r := RecvLocked(buf, len);
      Unlock();
    }

    // ----- sendto

    /** Records how the SEND owed by the statics given has ended. */
    method NoteOutcome(ret: int, ghost end: SendEnd, ghost owing: Statics)
      requires Recorded(owing, history) && Logged(history, dev.c.written) && owing.txState.Pending?
      requires M.ReportsEnd(ret, end, owing.pendingLen, owing.health.Faulted?)
      modifies this`history
      ensures history == old(history) + [M.Outcome(ret, end)] && Logged(history, dev.c.written)
      ensures forall len: word :: Recorded(owing.(txState := Idle, pendingLen := len), history)
    {
      M.RunAppend(history, M.Outcome(ret, end));
      M.CommandsAppend(history, M.Outcome(ret, end));
      history := history + [M.Outcome(ret, end)];
    }

    /** Clears the event that ends the SEND owed: SENDOK, or else TIMEOUT.  It is that SEND's own. */
    method ClearEnd(sendOk: bool, ghost owing: Statics, ghost len: word)
      requires ChipOk(dev.c) && Linked(owing, dev.c, inSync, begun)
      requires owing.health.Healthy? && Datagram(owing.mode) && owing.txState.Pending?
      requires if sendOk then dev.c.sendOk else dev.c.timeout
      modifies dev
      ensures ChipOk(dev.c) && Linked(owing.(txState := Idle, pendingLen := len), dev.c, inSync, begun)
      ensures Quiet(old(dev.c), dev.c) && dev.c.written == old(dev.c.written)
      ensures dev.c.finished == dev.c.sends == old(dev.c.sends)
      ensures EndedAs(dev.c, dev.c.sends, if sendOk then Succeeded else TimedOut)
      ensures if sendOk then !dev.c.sendOk else !dev.c.timeout
    {
      hide ChipOk, Flow, Restart, Linked, Quiet, Datagram, Cleared, Elapsed;
      ghost var start := dev.c;
      ModesApart(owing.mode);
      QuietSelf(start);
      ghost var at := ClearEvents(sendOk, !sendOk);
      Undisturbed(start, start, at, owing, inSync, begun);
      NoMoreSends(owing, start, at, inSync, begun);
      EventStays(start, at);
      ClearedShows(at, sendOk, !sendOk);
      Settles(start, at, sendOk, !sendOk, owing, len, inSync, begun);
    }

    /** A sendto call on a pending datagram: one look at the events, nothing else. */
    method PollPending() returns (r: int, ghost fate: Fate)
      requires Valid() && s.health.Healthy? && Datagram(s.mode) && s.txState.Pending?
      modifies this`s, this`history, dev
      ensures Valid() && (fate.StillPending? || fate.Reported?)
      ensures SendToOutcome(old(s), old(dev.c), s, dev.c, true, [], r, fate)
      ensures history == old(history) + SendToEvents([], fate, r)
      ensures old(Stuck(s, dev.c)) ==> fate.StillPending? && Stuck(s, dev.c)
      ensures fate.Reported? ==> if fate.end == Succeeded then !dev.c.sendOk else !dev.c.timeout
    {
      hide ChipOk, Flow, Restart, InStep, Recorded, Logged, Linked, Quiet, Datagram, Elapsed, EndedAs;
      ghost var start, owing := dev.c, s;
      ModesApart(s.mode);
      QuietSelf(start);
      var sendOk, timeout := ReadEvents();
      Undisturbed(start, start, dev.c, s, inSync, begun);
      NoMoreSends(s, start, dev.c, inSync, begun);
      EventStays(start, dev.c);
      if Stuck(s, start) {
        StuckStays(s, start, dev.c, inSync, begun);
      }
      if !sendOk && !timeout {
        return SOCK_BUSY, StillPending;
      }
      ghost var before := dev.c;
      ClearEnd(sendOk, owing, 0);
      QuietTwice(start, before, dev.c);
      r := if sendOk then s.pendingLen else SOCKERR_TIMEOUT;
      s := s.(pendingLen := 0, txState := Idle);
      fate := Reported(if sendOk then Succeeded else TimedOut);
      NoteOutcome(r, fate.end, owing);
    }

    /** Waits until len bytes are free, on an open datagram socket. */
    method AwaitDatagramRoom(len: nat) returns (r: int)
      requires Valid() && s.health.Healthy? && Datagram(s.mode) && FormatOf(s.mode) != Macraw && ConfigValid()
      modifies dev, clock
      ensures Valid() && Quiet(old(dev.c), dev.c) && (r == SOCK_OK || r <= 0)
      ensures dev.c.sends == old(dev.c.sends)
      ensures r == SOCK_OK ==> len <= TxFree(dev.c)
      ensures r == SOCK_BUSY ==> s.nonblocking
    {
      hide ChipOk, Flow, Restart, InStep, Recorded, Logged, Linked, Quiet, TxFree, Tcp, Datagram, Elapsed;
      ghost var start := dev.c;
      ModesApart(s.mode);
      var deadline := clock.Deadline(operationTimeout);
      var poll := clock.StartPoll();
      QuietSelf(start);
      while true
        invariant Valid() && Quiet(start, dev.c) && dev.c.sends == start.sends
        invariant poll.polls < POLL_MAX
        decreases POLL_MAX - poll.polls
      {
        ghost var before := dev.c;
        OverrunKnown(s, before, inSync, begun);
        var free;
        ghost var held;
        r, free, held := ReadTxFree();
        Undisturbed(start, before, dev.c, s, inSync, begun);
        NoMoreSends(s, before, dev.c, inSync, begun);
        if r != 0 {
          return;
        }
        before := dev.c;
        var status := ReadStatus();
        Undisturbed(start, before, dev.c, s, inSync, begun);
        NoMoreSends(s, before, dev.c, inSync, begun);
        OverrunKnown(s, before, inSync, begun);
        FreeOnlyGrows(before, dev.c);
        if status == SR_CLOSED {
          return SOCKERR_SOCKCLOSED;
        }
        if len <= free {
          return SOCK_OK;
        }
        if s.nonblocking {
          return SOCK_BUSY;
        }
        var expired;
        expired, poll := clock.PollExpired(poll, deadline);
        if expired {
          return SOCKERR_TIMEOUT;
        }
      }
    }

    /** Clears stale events, copies, sends, and waits for acceptance.  Once accepted, a SEND is owed:
        any event showing from now on is its own. */
    method SubmitDatagram(data: seq<byte>) returns (r: int)
      requires Valid() && s.health.Healthy? && Datagram(s.mode) && s.txState.Idle? && clock.active
      requires |data| < 0x1_0000 && (FormatOf(s.mode) != Macraw ==> |data| <= TxFree(dev.c))
      modifies this`s, this`history, dev, clock
      ensures ChipOk(dev.c) && clock.Valid() && (r == SOCK_OK || r == SOCKERR_TIMEOUT)
      ensures r == SOCK_OK ==>
                s == old(s) && Moved(old(dev.c), dev.c, data) && dev.c.sends == old(dev.c.sends) + 1
                && (old(!dev.c.overrun && |data| <= TxFree(dev.c)) ==> !dev.c.overrun)
                && Recorded(s.(txState := Pending, pendingLen := |data|), history) && Logged(history, dev.c.written)
                && history == old(history) + Submitted(data) + [M.Accepted(|data|)]
                && Linked(s.(txState := Pending, pendingLen := |data|), dev.c, inSync, begun)
      ensures r != SOCK_OK ==> Valid() && s == old(s).(health := Faulted, txState := LocalFault)
                               && history == old(history) + Submitted(data) + [M.Fault]
    {
      hide ChipOk, Flow, Restart, InStep, Recorded, Logged, Linked, Quiet, Moved, TxFree, Datagram, Cleared,
           Framed, PacketsOk, RxOk, TxOk, EventsOk, AllWellFormed, Encoded, EventStep, CommandStep,
           Fixed, Elapsed, Filled, ResetsSocket, SendsKnown;
      ghost var start := dev.c;
      ModesApart(s.mode);
      QuietSelf(start);
      ghost var cleared := ClearEvents(true, true);
      StaleCleared(start, cleared, s, inSync, begun);
      ghost var copied, at;
      r, copied, at := CopyAndSend(data);
      if r != SOCK_OK {
        GiveUpDatagram();
        return;
      }
      DatagramSent(start, cleared, copied, data, at, dev.c, s, inSync, begun);
      NoteAccepted(|data|);
    }

    /** A SEND that was never accepted leaves the socket locally faulted. */
    method GiveUpDatagram()
      requires ChipOk(dev.c) && clock.Valid() && Recorded(s, history) && Logged(history, dev.c.written)
      requires s.health.Faulted? && s.txState.Idle?
      modifies this`s
      ensures Valid() && s == old(s).(txState := LocalFault)
    {
      hide ChipOk, InStep, Recorded, Logged, Linked;
      ghost var faulted := s;
      s := s.(txState := LocalFault);
      LocalFaultRecorded(faulted, s, history);
      FaultedIsLinked(s, dev.c, inSync, begun);
    }

    method NoteAccepted(ghost len: word)
      requires Recorded(s, history) && Logged(history, dev.c.written) && !s.txState.Pending?
      modifies this`history
      ensures history == old(history) + [M.Accepted(len)] && Logged(history, dev.c.written)
      ensures s.txState.Idle? && Datagram(s.mode) ==> Recorded(s.(txState := Pending, pendingLen := len), history)
    {
      M.RunAppend(history, M.Accepted(len));
      M.CommandsAppend(history, M.Accepted(len));
      history := history + [M.Accepted(len)];
    }

    /** Gives a SEND up: the socket is faulted, and the call reports a timeout. */
    method GiveUpOutcome(ghost owing: Statics)
      requires ChipOk(dev.c) && clock.Valid() && s.health.Healthy? && s.txState.Idle?
      requires owing == s.(txState := Pending) && Recorded(owing, history) && Logged(history, dev.c.written)
      modifies this`s, this`history
      ensures Valid() && s == old(s).(health := Faulted)
      ensures history == old(history) + [M.Fault] + [M.Outcome(SOCKERR_TIMEOUT, Abandoned)]
    {
      s := s.(health := Faulted);
      M.RunAppend(history, M.Fault);
      M.CommandsAppend(history, M.Fault);
      history := history + [M.Fault];
      hide ChipOk, InStep, Linked, Recorded, Logged;
      FaultKeepsPending(owing, old(history));
      NoteOutcome(SOCKERR_TIMEOUT, Abandoned, owing.(health := Faulted));
      FaultedIsLinked(s, dev.c, inSync, begun);
      assert s == owing.(health := Faulted).(txState := Idle, pendingLen := s.pendingLen);
    }

    /** One look at the events while a SEND is owed. */
    method LookForEnd(ghost owing: Statics) returns (sendOk: bool, timeout: bool)
      requires ChipOk(dev.c) && Linked(owing, dev.c, inSync, begun) && owing.health.Healthy? && Datagram(owing.mode)
      modifies dev
      ensures ChipOk(dev.c) && Linked(owing, dev.c, inSync, begun) && Quiet(old(dev.c), dev.c)
      ensures dev.c.sends == old(dev.c.sends) && dev.c.written == old(dev.c.written)
      ensures sendOk == dev.c.sendOk && timeout == dev.c.timeout
    {
      hide ChipOk, Flow, Restart, Linked, Quiet, Datagram, Elapsed;
      ghost var start := dev.c;
      ModesApart(owing.mode);
      QuietSelf(start);
      sendOk, timeout := ReadEvents();
      Undisturbed(start, start, dev.c, owing, inSync, begun);
      NoMoreSends(owing, start, dev.c, inSync, begun);
    }

    /** A blocking sendto waits here for its own SEND to end: at most POLL_MAX polls, and it gives up
        only when those have run out or the true time allowed has passed. */
    method AwaitOutcome(len: word) returns (r: int, ghost end: SendEnd, ghost polls: nat)
      requires ChipOk(dev.c) && clock.Valid() && clock.active
      requires s.health.Healthy? && Datagram(s.mode) && s.txState.Idle?
      requires s.pendingLen == len && Recorded(s.(txState := Pending), history) && Logged(history, dev.c.written)
      requires Linked(s.(txState := Pending), dev.c, inSync, begun)
      modifies this`s, this`history, dev, clock
      ensures Valid() && Quiet(old(dev.c), dev.c) && dev.c.sends == old(dev.c.sends)
      ensures if end == Abandoned then
                r == SOCKERR_TIMEOUT && s == old(s).(health := Faulted)
                && history == old(history) + [M.Fault] + [M.Outcome(r, end)]
                && (polls == POLL_MAX || clock.time >= Min(old(clock.time) + operationTimeout, FOREVER))
              else
                s == old(s) && dev.c.finished == dev.c.sends && Reports(r, end, len, dev.c, dev.c.sends)
                && history == old(history) + [M.Outcome(r, end)]
      ensures polls <= POLL_MAX
    {
      hide ChipOk, Flow, Restart, InStep, Recorded, Logged, Linked, Quiet, Tcp, Datagram, EndedAs, Elapsed;
      ghost var start, noted := dev.c, history;
      ghost var owing, origin := s.(txState := Pending), clock.origin;
      ModesApart(s.mode);
      var deadline := clock.Deadline(operationTimeout);
      var poll := clock.StartPoll();
      QuietSelf(start);
      polls := 0;
      while true
        invariant ChipOk(dev.c) && clock.Valid() && Linked(owing, dev.c, inSync, begun) && Quiet(start, dev.c)
        invariant s == old(s) && history == noted && dev.c.sends == start.sends && dev.c.written == start.written
        invariant polls == poll.polls < POLL_MAX && poll.timeout == FOREVER
        invariant clock.origin == origin && deadline + origin >= old(clock.time) + operationTimeout
        decreases POLL_MAX - polls
      {
        ghost var before := dev.c;
        var sendOk, timeout := LookForEnd(owing);
        QuietTwice(start, before, dev.c);
        before := dev.c;
        if sendOk || timeout {
          ClearEnd(sendOk, owing, len);
          QuietTwice(start, before, dev.c);
          r := if sendOk then len else SOCKERR_TIMEOUT;
          end := if sendOk then Succeeded else TimedOut;
          NoteOutcome(r, end, owing);
          assert s == owing.(txState := Idle, pendingLen := len);
          return;
        }
        var expired;
        expired, poll := clock.PollExpired(poll, deadline);
        polls := polls + 1;
        if expired {
          GiveUpOutcome(owing);
          return SOCKERR_TIMEOUT, Abandoned, polls;
        }
      }
    }

    /** The argument and status checks between the pending branch and the copy. */
    method CheckDatagram(addr: seq<byte>, port: word) returns (r: int)
      requires Valid() && s.health.Healthy? && |addr| == 4
      modifies dev
      ensures Valid() && (r == SOCK_OK || r < 0)
      ensures s.mode != 0 ==> Quiet(old(dev.c), dev.c) && dev.c.sends == old(dev.c.sends)
      ensures FormatOf(s.mode) == Macraw ==> dev.c == old(dev.c)
      ensures var f := FormatOf(s.mode);
              if !Datagram(s.mode) then r == SOCKERR_SOCKMODE
              else if f == Macraw then r == SOCK_OK
              else if f == Ipraw && addr == [0, 0, 0, 0] then r == SOCKERR_IPINVALID
              else if port == 0 then r == SOCKERR_PORTZERO
              else if addr == [0, 0, 0, 0] then r == SOCKERR_IPINVALID
              else r == SOCK_OK || r == SOCKERR_SOCKSTATUS
    {
      hide ChipOk, Flow, Restart, Recorded, Logged, Linked, Quiet;
      ghost var start := dev.c;
      QuietSelf(start);
      if !Datagram(s.mode) {
        return SOCKERR_SOCKMODE;
      }
      ModesApart(s.mode);
      if FormatOf(s.mode) == Udp && port == 0 {
        return SOCKERR_PORTZERO;
      }
      if FormatOf(s.mode) != Macraw {
        if addr == [0, 0, 0, 0] {
          return SOCKERR_IPINVALID;
        }
        if port == 0 {
          return SOCKERR_PORTZERO;
        }
        var status := ReadStatus();
        Undisturbed(start, start, dev.c, s, inSync, begun);
        NoMoreSends(s, start, dev.c, inSync, begun);
        if status != SR_MACRAW && status != SR_UDP && status != SR_IPRAW {
          return SOCKERR_SOCKSTATUS;
        }
      }
      return SOCK_OK;
    }

    /** Free space, which a MACRAW send does not look at, or at least an open socket. */
    method PrepareDatagram(len: nat) returns (r: int)
      requires Valid() && s.health.Healthy? && Datagram(s.mode) && ConfigValid()
      modifies dev, clock
      ensures Valid() && Quiet(old(dev.c), dev.c) && dev.c.sends == old(dev.c.sends)
      ensures r == SOCK_OK && FormatOf(s.mode) != Macraw ==> len <= TxFree(dev.c)
      ensures r == SOCK_OK && old(!dev.c.overrun && len <= TxFree(dev.c)) ==> len <= TxFree(dev.c)
      ensures r == SOCK_OK || r <= 0
    {
      hide ChipOk, Flow, Restart, InStep, Recorded, Logged, Linked, Quiet, TxFree, Datagram;
      ghost var start := dev.c;
      ModesApart(s.mode);
      if FormatOf(s.mode) != Macraw {
        r := AwaitDatagramRoom(len);
        return;
      }
      QuietSelf(start);
      var status := ReadStatus();
      Undisturbed(start, start, dev.c, s, inSync, begun);
      NoMoreSends(s, start, dev.c, inSync, begun);
      if !start.overrun {
        FreeOnlyGrows(start, dev.c);
      }
      return if status == SR_CLOSED then SOCKERR_SOCKCLOSED else SOCK_OK;
    }

    /** Everything after the checks, on a socket with no datagram pending. */
    method TransmitDatagram(data: seq<byte>) returns (r: int, ghost fate: Fate)
      requires Valid() && s.health.Healthy? && Datagram(s.mode) && s.txState.Idle? && ConfigValid()
      requires |data| < 0x1_0000
      modifies this`s, this`history, dev, clock
      ensures Valid() && SendToOutcome(old(s), old(dev.c), s, dev.c, true, data, r, fate)
      ensures history == old(history) + SendToEvents(data, fate, r)
    {
      hide ChipOk, Flow, Restart, InStep, Recorded, Logged, Linked, Quiet, Moved, TxFree, Datagram, Elapsed, EndedAs;
      ghost var start, noted := dev.c, history;
      r := PrepareDatagram(|data|);
      QuietOverrun(start, dev.c);
      if r != SOCK_OK {
        return r, Declined;
      }
      ghost var before := dev.c;
      r := SubmitDatagram(data);
      if r != SOCK_OK {
        Regroup(noted, Submitted(data), M.Fault);
        return r, Unaccepted;
      }
      QuietMoves(start, before, dev.c, data);
      Regroup(noted, Submitted(data), M.Accepted(|data|));
      if s.nonblocking {
        s := s.(txState := Pending, pendingLen := |data|);
        return SOCK_BUSY, Queued;
      }
      before := dev.c;
      s := s.(pendingLen := |data|);
      ghost var end, polls;
      r, end, polls := AwaitOutcome(|data|);
      MovesQuiet(start, before, dev.c, data);
      QuietOverrun(before, dev.c);
      fate := Finished(end);
      FinishedEvents(noted, data, end, r);
    }

    method SendToLocked(data: seq<byte>, addr: seq<byte>, port: word) returns (r: int, ghost fate: Fate)
      requires Valid() && |addr| == 4 && 0 < |data| < 0x1_0000
      modifies this`s, this`history, dev, clock
      ensures var sent := data[..Min(|data|, txMax)];
              Valid() && SendToOutcome(old(s), old(dev.c), s, dev.c, old(ConfigValid()), sent, r, fate)
              && history == old(history) + SendToEvents(sent, fate, r)
      ensures old(Stuck(s, dev.c) && ConfigValid()) ==> fate.StillPending? && Stuck(s, dev.c)
    {
      hide ChipOk, Flow, Restart, InStep, Linked, Recorded, Logged, Quiet, Moved, TxFree, Datagram, FormatOf, EndedAs;
      ghost var start := dev.c;
      QuietSelf(start);
      fate := Declined;
      if s.txState.LocalFault? {
        FaultIsFault(s, history);
        return SOCKERR_TIMEOUT, fate;
      }
      if s.health.Faulted? {
        return SOCKERR_IO, fate;
      }
      if !ConfigValid() {
        return SOCKERR_TIMEOUT, fate;
      }
      if s.txState.Pending? {
        PendingIsDatagram(s, history);
        r, fate := PollPending();
        return;
      }
      r := CheckDatagram(addr, port);
      if s.mode != 0 {
        QuietOverrun(start, dev.c);
      }
      if r != SOCK_OK {
        return;
      }
      ModesApart(s.mode);
      ghost var was, before := s, dev.c;
      var payload := data[..Min(|data|, txMax)];
      r, fate := TransmitDatagram(payload);
      OutcomeLater(was, start, before, s, dev.c, payload, r, fate);
    }

    /** sendto. */
    method SendTo(buf: array<byte>, len: nat, addr: seq<byte>, port: word) returns (r: int, ghost fate: Fate)
      requires Valid() && len <= buf.Length && len < 0x1_0000 && |addr| == 4
      modifies this`s, this`history, this`locks, dev, clock
      ensures Valid()
      ensures if len > 0 && sn < SOCKETS then
                var sent := buf[..Min(len, txMax)];
                SendToOutcome(old(s), old(dev.c), s, dev.c, old(ConfigValid()), sent, r, fate)
                && history == old(history) + SendToEvents(sent, fate, r)
                && (old(Stuck(s, dev.c) && ConfigValid()) ==> fate.StillPending? && Stuck(s, dev.c))
              else
                r == (if len == 0 then 0 else SOCKERR_SOCKNUM) && s == old(s) && history == old(history)
                && dev.c == old(dev.c)
      ensures locks == old(locks) || locks == old(locks) + SocketCall(sn)
      ensures old(history) <= history
    {
      if len == 0 {
        return 0, Declined;
      }
      if sn >= SOCKETS {
        return SOCKERR_SOCKNUM, Declined;
      }
      hide ChipOk, InStep, Recorded, Logged, Linked, SendToOutcome, SendToEvents, Stuck;
      Lock();
      r, fate := SendToLocked(buf[..len], addr, port);
      Unlock();
      assert buf[..len][..Min(len, txMax)] == buf[..Min(len, txMax)];
    }

    // ----- recvfrom

    /** Valid(), except that the driver may have lost its place among the packets. */
    ghost predicate InHand()
      reads this, dev, clock
    {
      ChipOk(dev.c) && clock.Valid() && Recorded(s, history) && Logged(history, dev.c.written)
      && Linked(s, dev.c, false, begun)
    }

    /** wiz_recv_data, RECV, and the wait for its acceptance. */
    method CopyAndTake(buf: array<byte>, n: nat)
        returns (r: int, ghost copied: Chip, ghost at: Chip, ghost late: Chip, ghost end: Chip)
      requires ChipOk(dev.c) && clock.Valid() && clock.active && n <= buf.Length
      requires s.health.Healthy? && Recorded(s, history) && Logged(history, dev.c.written)
      modifies dev, clock, this`s, this`history, buf
      ensures clock.Valid() && ChipOk(dev.c) && Recorded(s, history) && Logged(history, dev.c.written)
      ensures r == SOCK_OK || r == SOCKERR_TIMEOUT || r == SOCK_BUSY
      ensures ChipOk(copied) && Elapsed(old(dev.c), copied)
      ensures Elapsed(if n == 0 then copied else CopyOut(copied, n), at)
      ensures Elapsed(Commanded(at, CR_RECV), late) && Elapsed(late, end) && (r == SOCK_OK <==> late.cr == 0)
      ensures r == SOCK_OK ==> dev.c == end && end.cr == 0 && s == old(s)
      ensures r == SOCK_BUSY ==> dev.c == end && s.nonblocking && s == old(s)
      ensures r == SOCKERR_TIMEOUT ==>
                || (s == old(s) && end.timeout && dev.c == Cleared(end, false, true))
                || (s == old(s).(health := Faulted) && dev.c == end)
      ensures !CopyOut(copied, n).torn ==> buf[..n] == copied.arrived[copied.taken..copied.taken + n]
      ensures buf[n..] == old(buf[n..])
      ensures old(history) <= history
    {
      hide ChipOk, Recorded, Logged, Elapsed, InStep, Cleared, Commanded;
      copied := ReceiveData(buf, n);
      ElapsedIsOk(old(dev.c), copied);
      at := WriteCommand(CR_RECV);
      ghost var polls;
      r, late, end, polls := WaitDatagramAccepted(s.nonblocking);
    }

    /** The same on a datagram socket.  Where the chip knows of every byte read, the next n bytes have
        been copied whatever the result, and success means that the chip knows; late is the state in
        which an unaccepted RECV was last seen. */
    method TakeBytes(buf: array<byte>, n: nat) returns (r: int, ghost late: Chip)
      requires InHand() && clock.active && s.health.Healthy? && Datagram(s.mode) && n <= buf.Length
      modifies this`s, this`history, dev, clock, buf
      ensures InHand() && (r == SOCK_OK || r == SOCKERR_TIMEOUT || r == SOCK_BUSY)
      ensures if r == SOCK_OK then s == old(s) else SameBut(s, old(s)) && NotAccepted(s, dev.c, late, r)
      ensures Settled(old(dev.c)) && n <= |old(dev.c.arrived)| - old(dev.c.taken) ==>
                TookOut(old(dev.c), dev.c, n) && (n == 0 ==> Settled(dev.c))
      ensures r == SOCK_OK && Settled(old(dev.c)) && n <= |old(dev.c.arrived)| - old(dev.c.taken) ==>
                Took(old(dev.c), dev.c, n) && Settled(dev.c)
                && buf[..n] == dev.c.arrived[old(dev.c.taken)..dev.c.taken]
      ensures buf[n..] == old(buf[n..])
      ensures old(history) <= history
    {
      hide ChipOk, Flow, Restart, InStep, Recorded, Logged, Linked, Took, TookOut, Settled, Datagram, Cleared, Stuck,
           Elapsed, Commanded, EventsOk, NotAccepted;
      ghost var start, was := dev.c, s;
      ghost var copied, at, end;
      r, copied, at, late, end := CopyAndTake(buf, n);
      if Settled(start) && n <= |start.arrived| - start.taken {
        TakenOut(start, copied, n, at, late, end, dev.c, was, begun);
        if r == SOCK_OK {
          LooseCommand(start, was, begun);
          ElapsedTwice(Commanded(at, CR_RECV), late, end);
          TakeMoves(start, copied, n, at, dev.c);
          SettledTaken(start, dev.c, n);
          ArrivedSlice(start, copied, dev.c, n);
        }
      }
      if r != SOCK_OK {
        TakeRefused(start, copied, n, at, late, end, dev.c, was, s, r, begun);
      }
      if s.health.Faulted? {
        FaultedIsLinked(s, dev.c, false, begun);
      } else {
        ElapsedTwice(Commanded(at, CR_RECV), late, end);
        LooselyTaken(start, copied, n, at, end, dev.c, s, begun);
      }
    }

    /** One look at the received size and the status of a datagram socket. */
    method LookForPacket() returns (r: int, size: word, status: byte)
      requires Valid() && s.health.Healthy? && Datagram(s.mode)
      modifies dev, clock
      ensures Valid() && Quiet(old(dev.c), dev.c) && r <= 0
      ensures r == 0 && size != 0 && inSync ==> dev.c.taken < |dev.c.arrived|
    {
      hide ChipOk, Flow, Restart, InStep, Recorded, Logged, Linked, Quiet, Settled, Datagram, Elapsed;
      ghost var start, held := dev.c, dev.c;
      status := 0;
      ModesApart(s.mode);
      QuietSelf(start);
      if inSync {
        DatagramSettled(s, start, begun);
      }
      r, size, held := ReadRxSize();
      Undisturbed(start, start, dev.c, s, inSync, begun);
      if r != 0 {
        return;
      }
      ghost var before := dev.c;
      status := ReadStatus();
      Undisturbed(start, before, dev.c, s, inSync, begun);
      if inSync {
        PacketsStay(s, before, dev.c, begun);
      }
    }

    /** Waits until something has arrived, on an open datagram socket. */
    method AwaitPacket() returns (r: int, size: word)
      requires Valid() && s.health.Healthy? && Datagram(s.mode) && ConfigValid()
      modifies dev, clock
      ensures Valid() && Quiet(old(dev.c), dev.c) && (r == SOCK_OK || r <= 0)
      ensures r == SOCK_OK ==> 0 < size && (inSync ==> dev.c.taken < |dev.c.arrived|)
      ensures r == SOCK_BUSY ==> s.nonblocking
    {
      hide ChipOk, InStep, Recorded, Logged, Linked, Quiet, Settled, Datagram, Elapsed;
      ghost var start := dev.c;
      var deadline := clock.Deadline(operationTimeout);
      var poll := clock.StartPoll();
      QuietSelf(start);
      while true
        invariant Valid() && Quiet(start, dev.c)
        invariant poll.polls < POLL_MAX
        decreases POLL_MAX - poll.polls
      {
        ghost var before := dev.c;
        var status;
        r, size, status := LookForPacket();
        QuietTwice(start, before, dev.c);
        if r != 0 {
          return;
        }
        if status == SR_CLOSED {
          return SOCKERR_SOCKCLOSED, 0;
        }
        if size != 0 {
          return SOCK_OK, size;
        }
        if s.nonblocking {
          return SOCK_BUSY, 0;
        }
        var expired;
        expired, poll := clock.PollExpired(poll, deadline);
        if expired {
          return SOCKERR_TIMEOUT, 0;
        }
      }
    }

    /** Reads and decodes a header.  A MACRAW length below 2 or of more than a frame closes the
        socket; a RECV that is not accepted loses the place among the packets. */
    method OpenDatagram() returns (r: int, peer: seq<byte>, ghost seen: Chip)
      requires Valid() && s.health.Healthy? && Datagram(s.mode) && ConfigValid() && s.remained == 0
      requires inSync ==> dev.c.taken < |dev.c.arrived|
      modifies this`s, this`history, this`inSync, this`begun, dev, clock
      ensures Valid() && (r == SOCK_OK ==> dev.c == seen)
      ensures r == SOCK_OK || r == SOCKERR_TIMEOUT || r == SOCK_BUSY || r == SOCKFATAL_PACKLEN
      ensures r == SOCK_OK ==> s == old(s).(remained := s.remained, first := true, more := false)
      ensures r == SOCK_OK ==> inSync == old(inSync)
      ensures old(inSync) && (r == SOCK_OK || r == SOCKFATAL_PACKLEN) ==>
                HeaderTaken(old(dev.c), seen, old(begun), FormatOf(old(s.mode)))
                && (r == SOCKFATAL_PACKLEN <==> Oversized(FormatOf(old(s.mode)), seen.packets[old(begun)]))
      ensures r == SOCK_OK && inSync ==>
                begun == old(begun) + 1 && peer == seen.packets[old(begun)].source
                && s.remained == |seen.packets[old(begun)].payload|
      ensures r == SOCKFATAL_PACKLEN ==> !inSync && (s == FRESH || s == FRESH.(health := Faulted))
      ensures old(inSync) && (r == SOCKERR_TIMEOUT || r == SOCK_BUSY) ==>
                RecvFromOutcome(Place(old(s), old(dev.c), old(begun)), Place(s, dev.c, begun), inSync, seen,
                                1, r, [], peer, HeaderLost)
      ensures old(history) <= history
    {
      hide ChipOk, Flow, Restart, InStep, Recorded, Logged, Linked, Took, TookOut, Settled, Datagram, Header, Word,
           WellFormed, LengthField, Framed, PacketsOk, HeaderTaken, AllWellFormed, Encoded, Stuck, Unframed;
      ghost var start, was, place := dev.c, s, begun;
      var format := FormatOf(s.mode);
      var n := SourceLen(format);
      WithoutSync(s, start, inSync, begun);
      if inSync {
        DatagramSettled(s, start, begun);
        NextPacket(start, begun);
      }
      ghost var wasInSync := inSync;
      var head := new byte[8];
      r, seen := TakeBytes(head, n + 2);
      inSync := false;
      peer := head[..n];
      if r != SOCK_OK {
        if wasInSync {
          HandStillOk();
          HeaderUncounted(start, dev.c, place);
        }
        return;
      }
      seen := dev.c;
      r := DecodeHeader(head[..n + 2], start, wasInSync);
    }

    method DecodeHeader(head: seq<byte>, ghost start: Chip, ghost wasInSync: bool) returns (r: int)
      requires InHand() && s.health.Healthy? && Datagram(s.mode) && clock.active && !inSync
      requires |head| == HeaderLen(FormatOf(s.mode))
      requires wasInSync ==>
                 ChipOk(start) && Framed(start, 0, begun) && start.format == FormatOf(s.mode)
                 && start.taken < |start.arrived| && Took(start, dev.c, |head|) && Settled(dev.c)
                 && head == dev.c.arrived[start.taken..dev.c.taken]
      modifies this`s, this`history, this`inSync, this`begun, dev, clock
      ensures Valid() && (r == SOCK_OK || r == SOCKFATAL_PACKLEN)
      ensures r == SOCK_OK ==>
                s == old(s).(remained := s.remained, first := true, more := false) && dev.c == old(dev.c)
                && inSync == wasInSync && history == old(history)
      ensures wasInSync ==>
                HeaderTaken(start, old(dev.c), old(begun), FormatOf(old(s.mode)))
                && (r == SOCKFATAL_PACKLEN <==> Oversized(FormatOf(old(s.mode)), old(dev.c).packets[old(begun)]))
      ensures r == SOCK_OK && inSync ==>
                begun == old(begun) + 1 && head[..|head| - 2] == dev.c.packets[old(begun)].source
                && s.remained == |dev.c.packets[old(begun)].payload|
      ensures r == SOCKFATAL_PACKLEN ==> !inSync && (s == FRESH || s == FRESH.(health := Faulted))
      ensures old(history) <= history
    {
      hide ChipOk, Flow, Restart, InStep, Recorded, Logged, Linked, Took, TookOut, Settled, Datagram, Header, Word,
           WellFormed, LengthField, Framed, PacketsOk, HeaderTaken, AllWellFormed, Encoded, CloseEvents;
      ghost var was, place := s, begun;
      var format := FormatOf(s.mode);
      var n := SourceLen(format);
      var field := Word(head[n], head[n + 1]);
      if wasInSync {
        HeaderRead(start, dev.c, place, head);
      }
      if format == Macraw && (field < 2 || field - 2 > MAX_FRAME) {
        var closed, shown := CloseInternal(None);
        return SOCKFATAL_PACKLEN;
      }
      s := s.(remained := if format == Macraw then field - 2 else field, first := true, more := false);
      SameRecord(was, s, history);
      SameLooseLinks(was, s, dev.c, place);
      if wasInSync {
        inSync, begun := true, place + 1;
        InSyncAgain(s, dev.c, place, place + 1);
      } else {
        LooseAnywhere(s, dev.c, place, begun);
      }
      return SOCK_OK;
    }

    lemma HandStillOk()
      requires InHand()
      ensures ChipOk(dev.c)
    {
    }

    /** The end of a call: what remains of the packet, and the flag for it, which is never cleared. */
    method SetRemained(remained: word)
      requires InHand()
      modifies this`s
      ensures InHand() && s == old(s).(remained := remained, more := old(s.more) || remained != 0)
    {
      hide ChipOk, InStep, Recorded, Logged, Linked;
      ghost var was := s;
      s := s.(remained := remained, more := s.more || remained != 0);
      SameRecord(was, s, history);
      SameLooseLinks(was, s, dev.c, begun);
    }

    /** Hands over the next bytes of the packet in progress. */
    method HandOver(buf: array<byte>, len: nat) returns (r: int, n: nat, ghost late: Chip)
      requires Valid() && s.health.Healthy? && Datagram(s.mode) && ConfigValid() && 0 < len <= buf.Length
      modifies this`s, this`history, this`inSync, dev, clock, buf
      ensures Valid() && (r == SOCK_OK || r == SOCKERR_TIMEOUT || r == SOCK_BUSY)
      ensures n == Min(len, old(s.remained))
      ensures r == SOCK_OK ==>
                s == old(s).(remained := s.remained, more := old(s.more) || s.remained != 0)
                && s.remained == old(s.remained) - n && inSync == old(inSync)
      ensures r == SOCK_OK && inSync ==>
                Took(old(dev.c), dev.c, n) && |Rest(dev.c.packets, old(s.remained), begun)| == old(s.remained)
                && buf[..n] == Rest(dev.c.packets, old(s.remained), begun)[..n]
      ensures r != SOCK_OK ==>
                SameBut(s, old(s)) && (old(inSync) ==> TookOut(old(dev.c), dev.c, n))
                && NotAccepted(s, dev.c, late, r)
                && (old(inSync) ==> if s.remained == 0 then inSync && Took(old(dev.c), dev.c, 0)
                                    else !inSync && Unframed(dev.c, s.remained))
      ensures old(history) <= history
    {
      hide ChipOk, Flow, Restart, InStep, Recorded, Logged, Linked, Took, TookOut, Settled, Datagram, Rest, Framed,
           PacketsOk, RxOk, TxOk, AllWellFormed, Encoded, Elapsed, WellFormed, Encode, FormatOf, CopyOut,
           SendsKnown, Stuck, Unframed, NotAccepted, EventsOk, ResetsSocket;
      ghost var start, was, wasInSync := dev.c, s, inSync;
      n := Min(len, s.remained);
      WithoutSync(s, start, inSync, begun);
      if inSync {
        DatagramSettled(s, start, begun);
        RestArrives(start, s.remained, begun);
      }
      r, late := TakeBytes(buf, n);
      inSync := false;
      if r != SOCK_OK {
        if wasInSync {
          inSync := s.remained == 0;
          NotHanded(start, n);
        }
        return;
      }
      CountPiece(n, start, wasInSync);
    }

    /** Counts n bytes handed over. */
    method CountPiece(n: nat, ghost start: Chip, ghost wasInSync: bool)
      requires InHand() && n <= s.remained
      requires wasInSync ==>
                 ChipOk(start) && Framed(start, s.remained, begun) && Took(start, dev.c, n) && Settled(dev.c)
      modifies this`s, this`inSync
      ensures Valid() && inSync == wasInSync
      ensures s == old(s).(remained := s.remained, more := old(s.more) || s.remained != 0)
      ensures s.remained == old(s.remained) - n
      ensures wasInSync ==>
                |Rest(dev.c.packets, old(s.remained), begun)| == old(s.remained)
                && dev.c.arrived[start.taken..dev.c.taken] == Rest(dev.c.packets, old(s.remained), begun)[..n]
    {
      hide ChipOk, InStep, Recorded, Logged, Linked, Took, Settled, Rest, Framed, PacketsOk;
      ghost var remained := s.remained;
      SetRemained(s.remained - n);
      inSync := wasInSync;
      if wasInSync {
        HandStillOk();
        PieceRead(start, dev.c, remained, begun, n);
        InSyncAgain(s, dev.c, begun, begun);
      }
    }

    /** A piece copied by a RECV that was not accepted loses the place; an empty one does not. */
    lemma NotHanded(start: Chip, n: nat)
      requires InHand() && ChipOk(start) && Framed(start, s.remained, begun) && TookOut(start, dev.c, n)
      requires n <= s.remained && (n == 0 ==> s.remained == 0 && Settled(dev.c))
      ensures n > 0 ==> Unframed(dev.c, s.remained)
      ensures n == 0 ==> Linked(s, dev.c, true, begun) && Took(start, dev.c, 0)
    {
      hide Linked, Recorded, Logged, Unframed;
      if n > 0 {
        PieceUncounted(start, dev.c, s.remained, begun, n);
      } else {
        StepKept(start);
      }
    }

    /** A RECV that had nothing to tell the chip leaves the driver in step. */
    lemma StepKept(start: Chip)
      requires InHand() && ChipOk(dev.c) && s.remained == 0
      requires Framed(start, 0, begun) && TookOut(start, dev.c, 0) && Settled(dev.c)
      ensures Linked(s, dev.c, true, begun) && Took(start, dev.c, 0)
    {
      NothingUncounted(start, dev.c, begun);
      InSyncAgain(s, dev.c, begun, begun);
    }

    /** An IPRAW header that announces no payload: nothing is copied, and the count left over from
        the size register is subtracted from a remainder of zero. */
    method HandOverNothing(size: word) returns (r: int, ghost late: Chip)
      requires Valid() && s.health.Healthy? && Datagram(s.mode) && ConfigValid() && s.remained == 0 && size > 0
      modifies this`s, this`history, this`inSync, dev, clock
      ensures Valid() && (r == SOCK_OK || r == SOCKERR_TIMEOUT || r == SOCK_BUSY)
      ensures r == SOCK_OK ==> s == old(s).(remained := Negated(size), more := old(s.more) || Negated(size) != 0)
      ensures old(inSync) ==> Took(old(dev.c), dev.c, 0)
      ensures r == SOCK_OK ==> !inSync && (old(inSync) ==> Unframed(dev.c, s.remained))
      ensures r != SOCK_OK ==>
                SameBut(s, old(s)) && inSync == old(inSync)
                && NotAccepted(s, dev.c, late, r)
      ensures old(history) <= history
    {
      hide ChipOk, Flow, Restart, InStep, Recorded, Logged, Linked, Took, TookOut, Settled, Datagram, Framed, Stuck,
           Unframed, Elapsed;
      ghost var start, wasInSync := dev.c, inSync;
      WithoutSync(s, dev.c, inSync, begun);
      if inSync {
        DatagramSettled(s, dev.c, begun);
        RestArrives(dev.c, 0, begun);
      }
      var none := new byte[0];
      r, late := TakeBytes(none, 0);
      if wasInSync {
        HandStillOk();
        StepKept(start);
      }
      if r == SOCK_OK {
        inSync := false;
        if wasInSync {
          StaleRemainder(start, dev.c, begun, size);
        }
        SetRemained(Negated(size));
      }
    }

    /** The rest of a call on a packet in progress. */
    method ReadOn(buf: array<byte>, len: nat) returns (r: int, ghost end: Ending, ghost seen: Chip)
      requires Valid() && s.health.Healthy? && Datagram(s.mode) && ConfigValid()
      requires s.remained > 0 && 0 < len <= buf.Length
      modifies this`s, this`history, this`inSync, dev, clock, buf
      ensures Valid() && (0 <= r <= buf.Length || end != Handed)
      ensures old(inSync) ==>
                RecvFromOutcome(Place(old(s), old(dev.c), begun), Place(s, dev.c, begun), inSync, seen,
                                len, r, if end == Handed then buf[..r] else [], [], end)
      ensures old(history) <= history
      ensures end != Refused
    {
      hide ChipOk, Flow, Restart, InStep, Recorded, Logged, Linked, Took, TookOut, Datagram, Rest, CallOk, Settled,
           Framed, PacketsOk, Unframed, Stuck, Elapsed;
      ghost var start, was, wasInSync := dev.c, s, inSync;
      if wasInSync {
        DatagramSettled(s, start, begun);
      }
      var status, n;
      status, n, seen := HandOver(buf, len);
      if status != SOCK_OK {
        return status, PieceLost, seen;
      }
      r, end := n, Handed;
      if wasInSync {
        NextPiece(start, dev.c, was.remained, begun, len, buf[..n]);
      }
    }

    /** The rest of a call that opens a packet; size is what the size register showed. */
    method ReadFirst(buf: array<byte>, len: nat, size: word)
        returns (r: int, peer: seq<byte>, ghost end: Ending, ghost seen: Chip)
      requires Valid() && s.health.Healthy? && Datagram(s.mode) && ConfigValid()
      requires s.remained == 0 && 0 < len <= buf.Length && 0 < size && (inSync ==> dev.c.taken < |dev.c.arrived|)
      modifies this`s, this`history, this`inSync, this`begun, dev, clock, buf
      ensures Valid() && (0 <= r <= buf.Length || end != Handed)
      ensures old(inSync) ==>
                RecvFromOutcome(Place(old(s), old(dev.c), old(begun)), Place(s, dev.c, begun), inSync, seen,
                                len, r, if end == Handed then buf[..r] else [], peer, end)
      ensures old(history) <= history
      ensures end != Refused
    {
      hide ChipOk, Flow, Restart, InStep, Recorded, Logged, Linked, Took, TookOut, Datagram, Rest, CallOk, Settled,
           Framed, PacketsOk, Unframed, Stuck, Elapsed, HeaderTaken, NotAccepted, Oversized;
      ghost var from := Place(s, dev.c, begun);
      if inSync {
        DatagramSettled(s, dev.c, begun);
      }
      r, peer, seen := OpenDatagram();
      if r != SOCK_OK {
        end := if r == SOCKFATAL_PACKLEN then Oversize else HeaderLost;
        return;
      }
      r, end, seen := ReadOpened(buf, len, size, peer, from);
    }

    /** The packet has just been opened, from the place given if the socket is in step. */
    method ReadOpened(buf: array<byte>, len: nat, size: word, ghost peer: seq<byte>, ghost from: Place)
        returns (r: int, ghost end: Ending, ghost seen: Chip)
      requires Valid() && s.health.Healthy? && Datagram(s.mode) && ConfigValid() && 0 < len <= buf.Length && 0 < size
      requires inSync ==>
                 HeaderTaken(from.c, dev.c, from.begun, FormatOf(s.mode))
                 && from.begun <= |from.c.packets| && begun == from.begun + 1 && from.s.remained == 0
                 && s == from.s.(remained := s.remained, first := true, more := false)
                 && s.remained == |dev.c.packets[from.begun].payload| && peer == dev.c.packets[from.begun].source
                 && !Oversized(FormatOf(s.mode), dev.c.packets[from.begun])
      modifies this`s, this`history, this`inSync, dev, clock, buf
      ensures Valid() && (0 <= r <= buf.Length || end != Handed)
      ensures old(inSync) ==>
                RecvFromOutcome(from, Place(s, dev.c, begun), inSync, seen,
                                len, r, if end == Handed then buf[..r] else [], peer, end)
      ensures old(history) <= history && end != Refused
    {
      hide ChipOk, Flow, Restart, InStep, Recorded, Logged, Linked, Took, TookOut, Datagram, Rest, CallOk, Settled,
           Framed, PacketsOk, Unframed, Stuck, Elapsed, HeaderTaken, NotAccepted, Oversized;
      ghost var mid, wasInSync := dev.c, inSync;
      ghost var format := FormatOf(s.mode);
      if FormatOf(s.mode) == Ipraw && s.remained == 0 {
        r, seen := HandOverNothing(size);
        end := if r == SOCK_OK then EmptyIpraw else Unconfirmed;
        if wasInSync {
          EmptyTaken(from.c, mid, dev.c, from.begun, format);
        }
        r := if r == SOCK_OK then size else r;
        return;
      }
      var n;
      r, n, seen := HandOver(buf, len);
      if r == SOCK_OK {
        r, end := n, Handed;
        if wasInSync {
          FirstPiece(from.c, mid, dev.c, from.begun, format, len, n, buf[..n]);
        }
        return;
      }
      end := if s.remained == 0 then Unconfirmed else PieceLost;
      if wasInSync {
        if s.remained == 0 {
          EmptyTaken(from.c, mid, dev.c, from.begun, format);
        } else {
          HeaderThenPiece(from.c, mid, dev.c, from.begun, format, n);
        }
      }
    }

    method RecvFromLocked(buf: array<byte>, len: nat, wantsPeer: bool)
        returns (r: int, peer: seq<byte>, ghost end: Ending, ghost seen: Chip)
      requires Valid() && 0 < len <= buf.Length
      modifies this`s, this`history, this`inSync, this`begun, dev, clock, buf
      ensures Valid()
      ensures old(s.health.Faulted?) ==> r == SOCKERR_IO && s == old(s) && history == old(history)
      ensures 0 <= r <= buf.Length || end != Handed
      ensures old(inSync) ==>
                RecvFromOutcome(Place(old(s), old(dev.c), old(begun)), Place(s, dev.c, begun), inSync, seen,
                                len, r, if end == Handed then buf[..r] else [], peer, end)
      ensures end == Refused ==> history == old(history)
      ensures old(history) <= history
    {
      hide ChipOk, Flow, Restart, InStep, Recorded, Logged, Linked, Took, TookOut, Quiet, Settled, Datagram, Rest,
           CallOk, Framed, PacketsOk, HeaderTaken, Unframed, Stuck, Elapsed, NotAccepted;
      ghost var start, was, place, wasInSync := dev.c, s, begun, inSync;
      seen, peer, end := start, [], Refused;
      QuietSelf(start);
      if s.health.Faulted? {
        return SOCKERR_IO, peer, end, seen;
      }
      if !ConfigValid() {
        return SOCKERR_TIMEOUT, peer, end, seen;
      }
      if !Datagram(s.mode) {
        return SOCKERR_SOCKMODE, peer, end, seen;
      }
      if wasInSync {
        DatagramSettled(s, start, place);
      }
      var size := 0;
      if s.remained == 0 {
        r, size := AwaitPacket();
        if r != SOCK_OK {
          return;
        }
      }
      if !wantsPeer {
        return SOCKERR_ARG, peer, end, seen;
      }
      ghost var arrived := dev.c;
      if s.remained == 0 {
        r, peer, end, seen := ReadFirst(buf, len, size);
        if wasInSync {
          OutcomeAfterQuiet(was, start, arrived, place, Place(s, dev.c, begun), inSync, seen, len, r,
                            if end == Handed then buf[..r] else [], peer, end);
        }
      } else {
        r, end, seen := ReadOn(buf, len);
      }
    }

    /** recvfrom. */
    method RecvFrom(buf: array<byte>, len: nat, wantsPeer: bool)
        returns (r: int, peer: seq<byte>, ghost end: Ending, ghost seen: Chip)
      requires Valid() && len <= buf.Length && len < 0x1_0000
      modifies this`s, this`history, this`inSync, this`begun, this`locks, dev, clock, buf
      ensures Valid() && (0 <= r <= buf.Length || end != Handed)
      ensures old(inSync) ==>
                RecvFromOutcome(Place(old(s), old(dev.c), old(begun)), Place(s, dev.c, begun), inSync, seen,
                                len, r, if end == Handed then buf[..r] else [], peer, end)
      ensures locks == old(locks) || locks == old(locks) + SocketCall(sn)
      ensures old(s.health.Faulted?) ==> r <= 0 && s == old(s) && history == old(history)
      ensures end == Refused ==> history == old(history)
      ensures old(history) <= history
    {
      hide ChipOk, Recorded, Logged, Linked, InStep, CallOk, Took, Rest;
      peer, end, seen := [], Refused, dev.c;
      QuietSelf(dev.c);
      if len == 0 {
        return 0, peer, end, seen;
      }
      if sn >= SOCKETS {
        return SOCKERR_SOCKNUM, peer, end, seen;
      }
      Lock();
      r, peer, end, seen := RecvFromLocked(buf, len, wantsPeer);
      Unlock();
    }

    // ----- listen, connect, disconnect

    /** A plain command and its acceptance. */
    method Perform(code: byte, deadline: nat) returns (r: int)
      requires Valid() && s.health.Healthy? && clock.active
      requires code != 0 && code != CR_SEND && !ResetsSocket(code)
      modifies this`s, this`history, dev, clock
      ensures Valid() && (r == SOCK_OK || r == SOCKERR_TIMEOUT)
      ensures r == SOCK_OK ==> s == old(s)
      ensures r != SOCK_OK ==> s == old(s).(health := Faulted)
      ensures r == SOCK_OK ==> QuietIfOpen(s, old(dev.c), dev.c)
      ensures r == SOCK_OK ==> history == old(history) + [M.Command(code)]
      ensures r != SOCK_OK ==> history == old(history) + [M.Command(code)] + [M.Fault]
    {
      hide ChipOk, Flow, Restart, InStep, Recorded, Logged, Linked, QuietIfOpen, ResetsSocket, Framed,
           AllWellFormed, Encoded;
      ghost var start, was := dev.c, s;
      QuietItself(s, start);
      ghost var at := WriteCommand(code);
      Passing(start, start, at, s, inSync, begun);
      PassingCommand(start, at, code, s, inSync, begun);
      ghost var asked, polls := dev.c, 0;
      r, polls := WaitAccepted(deadline);
      if r != SOCK_OK {
        FaultedIsLinked(s, dev.c, inSync, begun);
      } else {
        Passing(start, asked, dev.c, s, inSync, begun);
      }
    }

    /** listen. */
    method Listen() returns (r: int)
      requires Valid()
      modifies this`s, this`history, this`locks, dev, clock
      ensures Valid() && (r == SOCK_OK || r < 0) && (s == old(s) || s == old(s).(health := Faulted))
      ensures r == SOCK_OK ==> s == old(s) && QuietIfOpen(s, old(dev.c), dev.c)
                               && history == old(history) + [M.Command(CR_LISTEN)]
      ensures locks == old(locks) || locks == old(locks) + SocketCall(sn)
      ensures old(s.health.Faulted?) ==> r < 0 && s == old(s) && history == old(history)
      ensures old(history) <= history
    {
      hide ChipOk, InStep, Recorded, Logged, Linked, Quiet;
      if sn >= SOCKETS {
        return SOCKERR_SOCKNUM;
      }
      Lock();
      r := ListenLocked();
      Unlock();
    }

    method ListenLocked() returns (r: int)
      requires Valid()
      modifies this`s, this`history, dev, clock
      ensures Valid() && (r == SOCK_OK || r < 0) && (s == old(s) || s == old(s).(health := Faulted))
      ensures r == SOCK_OK ==> s == old(s) && QuietIfOpen(s, old(dev.c), dev.c)
                               && history == old(history) + [M.Command(CR_LISTEN)]
      ensures old(s.health.Faulted?) ==> r < 0 && s == old(s) && history == old(history)
      ensures history == old(history) || history == old(history) + [M.Command(CR_LISTEN)]
              || history == old(history) + [M.Command(CR_LISTEN)] + [M.Fault]
    {
      hide ChipOk, Flow, Restart, InStep, Recorded, Logged, Linked, QuietIfOpen, Framed, AllWellFormed, Encoded,
           Elapsed;
      ghost var start := dev.c;
      QuietItself(s, start);
      if s.health.Faulted? {
        return SOCKERR_IO;
      }
      var status := ReadStatus();
      Passing(start, start, dev.c, s, inSync, begun);
      if status != SR_INIT {
        return SOCKERR_SOCKINIT;
      }
      if !ConfigValid() {
        return SOCKERR_TIMEOUT;
      }
      ghost var before := dev.c;
      r := ListenNow();
      if r == SOCK_OK {
        PassingTwice(s, start, before, dev.c);
      }
    }

    /** LISTEN, and the wait for its status. */
    method ListenNow() returns (r: int)
      requires Valid() && s.health.Healthy? && clock.active
      modifies this`s, this`history, dev, clock
      ensures Valid() && (r == SOCK_OK || r == SOCKERR_TIMEOUT)
      ensures s == if r == SOCK_OK then old(s) else old(s).(health := Faulted)
      ensures r == SOCK_OK ==> QuietIfOpen(s, old(dev.c), dev.c) && history == old(history) + [M.Command(CR_LISTEN)]
      ensures r != SOCK_OK ==> history == old(history) + [M.Command(CR_LISTEN)] + [M.Fault]
    {
      hide ChipOk, InStep, Recorded, Logged, Linked, QuietIfOpen, Elapsed;
      ghost var start := dev.c;
      var deadline := clock.Deadline(commandTimeout);
      r := Perform(CR_LISTEN, deadline);
      if r != SOCK_OK {
        return;
      }
      ghost var before, polls := dev.c, 0;
      r, polls := WaitStatus(SR_LISTEN, deadline);
      if r != SOCK_OK {
        FaultedIsLinked(s, dev.c, inSync, begun);
        return;
      }
      Passing(start, before, dev.c, s, inSync, begun);
    }

    /** Looks for the timeout event on a stream socket, and clears it if it shows. */
    method StreamTimeout() returns (timeout: bool)
      requires Valid() && s.health.Healthy? && Tcp(s.mode)
      modifies dev
      ensures Valid() && Quiet(old(dev.c), dev.c) && (timeout ==> !dev.c.timeout)
    {
      hide ChipOk, InStep, Recorded, Logged, Linked, Quiet, Tcp, Datagram, Elapsed;
      ghost var start := dev.c;
      ModesApart(s.mode);
      QuietSelf(start);
      var sendOk;
      sendOk, timeout := ReadEvents();
      Undisturbed(start, start, dev.c, s, inSync, begun);
      if timeout {
        ghost var before := dev.c;
        ClearStreamEvents(false, true);
        QuietTwice(start, before, dev.c);
      }
    }

    /** Waits for a status, with no bound but the deadline: it ends because the clock moves on. */
    method AwaitStatus(wanted: byte, disconnecting: bool) returns (r: int)
      requires Valid() && s.health.Healthy? && Tcp(s.mode) && clock.active
      modifies this`s, this`history, dev, clock
      ensures Valid() && Quiet(old(dev.c), dev.c) && (r == SOCK_OK || r < 0)
      ensures r == SOCK_OK ==> s == old(s) && history == old(history)
      ensures s == old(s).(health := s.health)
      ensures history == if s.health.Faulted? then old(history) + [M.Fault] else old(history)
      ensures r == SOCK_OK || r == SOCKERR_TIMEOUT || r == SOCKERR_IO || r == SOCKERR_SOCKCLOSED
      ensures r == SOCKERR_TIMEOUT ==> !dev.c.timeout && (s.health.Faulted? <==> disconnecting)
      ensures r == SOCKERR_IO ==> s.health.Faulted? && clock.time >= old(clock.time) + operationTimeout
      ensures r == SOCKERR_SOCKCLOSED ==> s.health.Healthy? && !disconnecting
    {
      hide ChipOk, Flow, Restart, InStep, Recorded, Logged, Linked, Quiet, Tcp, Datagram, Framed, PacketsOk,
           AllWellFormed, Encoded, Elapsed;
      ghost var start, was, noted := dev.c, s, history;
      ModesApart(s.mode);
      QuietSelf(start);
      var deadline := clock.Deadline(operationTimeout);
      ghost var origin := clock.origin;
      while true
        invariant Valid() && Quiet(start, dev.c) && s == was && history == noted && clock.origin == origin
        invariant deadline + origin >= old(clock.time) + operationTimeout
        decreases deadline + origin - clock.time
      {
        ghost var before := dev.c;
        var status := ReadStatus();
        Undisturbed(start, before, dev.c, s, inSync, begun);
        if status == wanted {
          return SOCK_OK;
        }
        before := dev.c;
        var timeout := StreamTimeout();
        QuietTwice(start, before, dev.c);
        if timeout {
          if disconnecting {
            MarkFaulted();
            FaultedIsLinked(s, dev.c, inSync, begun);
          }
          return SOCKERR_TIMEOUT;
        }
        if !disconnecting && status == SR_CLOSED {
          return SOCKERR_SOCKCLOSED;
        }
        var expired := clock.ExpiredLater(deadline);
        if expired {
          MarkFaulted();
          FaultedIsLinked(s, dev.c, inSync, begun);
          return SOCKERR_IO;
        }
      }
    }

    /** connect with an IPv4 address. */
    method Connect(addr: seq<byte>, port: word) returns (r: int)
      requires Valid() && |addr| == 4
      modifies this`s, this`history, this`locks, dev, clock
      ensures Valid() && s == old(s).(health := s.health)
      ensures r == SOCK_OK ==> s == old(s) && Quiet(old(dev.c), dev.c)
                               && history == old(history) + [M.Command(CR_CONNECT)]
      ensures sn < SOCKETS && port == 0 ==> r == SOCKERR_PORTZERO
      ensures sn < SOCKETS && port != 0 && (addr == [0, 0, 0, 0] || addr == [0xFF, 0xFF, 0xFF, 0xFF]) ==>
                r == SOCKERR_IPINVALID
      ensures locks == old(locks) || locks == old(locks) + SocketCall(sn)
      ensures old(s.health.Faulted?) ==> r < 0 && s == old(s) && history == old(history)
      ensures old(history) <= history
    {
      hide ChipOk, InStep, Recorded, Logged, Linked, Quiet;
      if sn >= SOCKETS {
        return SOCKERR_SOCKNUM;
      }
      if port == 0 {
        return SOCKERR_PORTZERO;
      }
      if addr == [0, 0, 0, 0] || addr == [0xFF, 0xFF, 0xFF, 0xFF] {
        return SOCKERR_IPINVALID;
      }
      Lock();
      r := ConnectLocked();
      Unlock();
    }

    method ConnectLocked() returns (r: int)
      requires Valid()
      modifies this`s, this`history, dev, clock
      ensures Valid() && s == old(s).(health := s.health)
      ensures r == SOCK_OK ==> s == old(s) && Quiet(old(dev.c), dev.c)
                               && history == old(history) + [M.Command(CR_CONNECT)]
      ensures old(s.health.Faulted?) ==> r < 0 && s == old(s) && history == old(history)
      ensures old(history) <= history
    {
      hide ChipOk, Flow, Restart, InStep, Recorded, Logged, Linked, Quiet, Tcp, Framed, PacketsOk, AllWellFormed,
           Encoded, Elapsed;
      ghost var start := dev.c;
      if !ready {
        return SOCKERR_NOTREADY;
      }
      if s.health.Faulted? {
        return SOCKERR_IO;
      }
      if !Tcp(s.mode) {
        return SOCKERR_SOCKMODE;
      }
      ModesApart(s.mode);
      QuietSelf(start);
      var status := ReadStatus();
      Undisturbed(start, start, dev.c, s, inSync, begun);
      if status != SR_INIT {
        return SOCKERR_SOCKINIT;
      }
      ghost var before := dev.c;
      r := CommandThenConfig(CR_CONNECT);
      if r != SOCK_OK {
        return;
      }
      QuietTwice(start, before, dev.c);
      before := dev.c;
      r := AwaitStatus(SR_ESTABLISHED, false);
      QuietTwice(start, before, dev.c);
    }

    /** CONNECT and DISCON are written before the time configuration is looked at. */
    method CommandThenConfig(code: byte) returns (r: int)
      requires Valid() && s.health.Healthy? && Tcp(s.mode) && (code == CR_CONNECT || code == CR_DISCON)
      modifies this`s, this`history, dev, clock
      ensures Valid() && (r == SOCK_OK || r == SOCKERR_TIMEOUT)
      ensures r == SOCK_OK ==> s == old(s) && Quiet(old(dev.c), dev.c) && ConfigValid()
                               && history == old(history) + [M.Command(code)]
      ensures s == old(s).(health := s.health)
      ensures s.health.Healthy? ==> history == old(history) + [M.Command(code)]
      ensures s.health.Faulted? ==> history == old(history) + [M.Command(code)] + [M.Fault]
    {
      hide ChipOk, Flow, Restart, InStep, Recorded, Logged, Linked, Quiet, Tcp, Framed, PacketsOk, AllWellFormed,
           Encoded, Elapsed;
      ghost var start := dev.c;
      ModesApart(s.mode);
      QuietSelf(start);
      ghost var at := WriteCommand(code);
      Undisturbed(start, start, at, s, inSync, begun);
      CommandKeeps(start, at, code, s, inSync, begun);
      if !ConfigValid() {
        return SOCKERR_TIMEOUT;
      }
      ghost var asked, polls := dev.c, 0;
      var deadline := clock.Deadline(commandTimeout);
      r, polls := WaitAccepted(deadline);
      if r != SOCK_OK {
        FaultedIsLinked(s, dev.c, inSync, begun);
      } else {
        Undisturbed(start, asked, dev.c, s, inSync, begun);
      }
    }

    /** disconnect. */
    method Disconnect() returns (r: int)
      requires Valid()
      modifies this`s, this`history, this`locks, dev, clock
      ensures Valid() && (r == SOCK_OK || r < 0) && s == old(s).(health := s.health, isSending := s.isSending)
      ensures r == SOCK_OK ==> s.health == old(s.health) && Quiet(old(dev.c), dev.c)
                               && (history == old(history) || history == old(history) + [M.Command(CR_DISCON)])
      ensures locks == old(locks) || locks == old(locks) + SocketCall(sn)
      ensures old(s.health.Faulted?) ==> r < 0 && s == old(s) && history == old(history)
      ensures old(history) <= history
      ensures history == old(history) || DisconnectEvents(old(history), history, s.health)
    {
      hide ChipOk, InStep, Recorded, Logged, Linked, Quiet;
      if sn >= SOCKETS {
        return SOCKERR_SOCKNUM;
      }
      Lock();
      r := DisconnectLocked();
      Unlock();
    }

    method DisconnectLocked() returns (r: int)
      requires Valid()
      modifies this`s, this`history, dev, clock
      ensures Valid() && (r == SOCK_OK || r < 0) && s == old(s).(health := s.health, isSending := s.isSending)
      ensures r == SOCK_OK ==> s.health == old(s.health) && Quiet(old(dev.c), dev.c)
                               && (history == old(history) || history == old(history) + [M.Command(CR_DISCON)])
      ensures old(s.health.Faulted?) ==> r < 0 && s == old(s) && history == old(history)
      ensures old(history) <= history
      ensures history == old(history) || DisconnectEvents(old(history), history, s.health)
    {
      hide ChipOk, Flow, Restart, InStep, Recorded, Logged, Linked, Quiet, Tcp, Framed, PacketsOk, AllWellFormed,
           Encoded, Elapsed;
      if !ready {
        return SOCKERR_NOTREADY;
      }
      if s.health.Faulted? {
        return SOCKERR_IO;
      }
      if !Tcp(s.mode) {
        return SOCKERR_SOCKMODE;
      }
      r := DisconnectStream();
    }

    method DisconnectStream() returns (r: int)
      requires Valid() && s.health.Healthy? && Tcp(s.mode)
      modifies this`s, this`history, dev, clock
      ensures Valid() && (r == SOCK_OK || r < 0) && s == old(s).(health := s.health, isSending := s.isSending)
      ensures r == SOCK_OK ==> s.health == old(s.health) && Quiet(old(dev.c), dev.c)
                               && (history == old(history) || history == old(history) + [M.Command(CR_DISCON)])
      ensures DisconnectEvents(old(history), history, s.health)
    {
      hide ChipOk, Flow, Restart, InStep, Recorded, Logged, Linked, Quiet, Tcp, Elapsed;
      ghost var start := dev.c;
      ModesApart(s.mode);
      QuietSelf(start);
      var status := ReadStatus();
      Undisturbed(start, start, dev.c, s, inSync, begun);
      if status == SR_CLOSED {
        return SOCK_OK;
      }
      ghost var before := dev.c;
      if status == SR_ESTABLISHED || status == SR_CLOSE_WAIT {
        r := CommandThenConfig(CR_DISCON);
        if r != SOCK_OK {
          return;
        }
        QuietTwice(start, before, dev.c);
      }
      before := dev.c;
      r := AwaitClosed();
      QuietTwice(start, before, dev.c);
    }

    /** The wait at the end of a disconnect. */
    method AwaitClosed() returns (r: int)
      requires Valid() && s.health.Healthy? && Tcp(s.mode)
      modifies this`s, this`history, dev, clock
      ensures Valid() && (r == SOCK_OK || r < 0) && s == old(s).(health := s.health, isSending := false)
      ensures Quiet(old(dev.c), dev.c) && (r == SOCK_OK ==> s.health.Healthy?)
      ensures history == if s.health.Faulted? then old(history) + [M.Fault] else old(history)
    {
      hide ChipOk, Flow, Restart, InStep, Recorded, Logged, Linked, Quiet, Tcp, Elapsed;
      QuietSelf(dev.c);
      ghost var was := s;
      s := s.(isSending := false);
      SameLinks(was, s, history, dev.c, inSync, begun);
      if !ConfigValid() {
        return SOCKERR_TIMEOUT;
      }
      r := AwaitStatus(SR_CLOSED, true);
    }

    /** A register read by the application itself: it may see anything. */
    method ReadRegister() returns (value: word)
      requires Valid()
      modifies dev
      ensures Valid() && (s.health.Healthy? ==> QuietIfOpen(s, old(dev.c), dev.c))
    {
      hide ChipOk, Flow, Restart, InStep, Recorded, Logged, Linked, QuietIfOpen;
      ghost var start := dev.c;
      dev.Elapse();
      LinkedElapses(s, start, dev.c, inSync, begun);
      if s.health.Healthy? {
        QuietItself(s, start);
        Passing(start, start, dev.c, s, inSync, begun);
      }
      value := *;
    }

    // ----- ctlsocket, setsockopt and the reset entry point

    /** ctlsocket, CS_SET_IOMODE. */
    method SetIoMode(mode: byte) returns (r: int)
      requires Valid()
      modifies this`s, this`locks
      ensures Valid()
      ensures r == SOCK_OK <==> sn < SOCKETS && s.health.Healthy? && mode <= 1
      ensures s == if r == SOCK_OK then old(s).(nonblocking := mode == 1) else old(s)
      ensures locks == old(locks) || locks == old(locks) + SocketCall(sn)
    {
      hide ChipOk, InStep, Recorded, Logged, Linked;
      if sn >= SOCKETS {
        return SOCKERR_SOCKNUM;
      }
      Lock();
      r := SOCK_OK;
      if s.health.Faulted? {
        r := SOCKERR_IO;
      } else if mode <= 1 {
        ghost var was := s;
        s := s.(nonblocking := mode == 1);
        SameLinks(was, s, history, dev.c, inSync, begun);
      } else {
        r := SOCKERR_ARG;
      }
      Unlock();
    }

    /** ctlsocket, CS_GET_TX_STATE: answered for a faulted socket too, without touching the chip. */
    method GetTxState() returns (r: int, state: TxState)
      requires Valid()
      modifies this`locks
      ensures Valid() && state == s.txState && (r == SOCK_OK <==> sn < SOCKETS)
      ensures state == LocalFault ==> s.health.Faulted?
      ensures locks == old(locks) || locks == old(locks) + SocketCall(sn)
    {
      state := s.txState;
      if sn >= SOCKETS {
        return SOCKERR_SOCKNUM, state;
      }
      Lock();
      Unlock();
      return SOCK_OK, state;
    }

    /** setsockopt, SO_KEEPALIVESEND.  The automatic timer may be armed, which excludes it. */
    method KeepAlive(timerArmed: bool) returns (r: int)
      requires Valid()
      modifies this`s, this`history, this`locks, dev, clock
      ensures Valid() && s == old(s).(health := s.health)
      ensures r == SOCK_OK ==> s == old(s) && Quiet(old(dev.c), dev.c)
                               && history == old(history) + [M.Command(CR_SEND_KEEP)]
      ensures locks == old(locks) || locks == old(locks) + SocketCall(sn)
      ensures old(s.health.Faulted?) ==> r < 0 && s == old(s) && history == old(history)
      ensures old(history) <= history
    {
      hide ChipOk, InStep, Recorded, Logged, Linked, Quiet, Tcp;
      if sn >= SOCKETS {
        return SOCKERR_SOCKNUM;
      }
      Lock();
      if s.health.Faulted? {
        r := SOCKERR_IO;
      } else if !Tcp(s.mode) {
        r := SOCKERR_SOCKMODE;
      } else if timerArmed {
        r := SOCKERR_SOCKOPT;
      } else if !ConfigValid() {
        r := SOCKERR_TIMEOUT;
      } else {
        r := SendKeep();
      }
      Unlock();
    }

    method SendKeep() returns (r: int)
      requires Valid() && s.health.Healthy? && Tcp(s.mode) && ConfigValid()
      modifies this`s, this`history, dev, clock
      ensures Valid() && s == old(s).(health := s.health)
      ensures r == SOCK_OK ==> s == old(s) && Quiet(old(dev.c), dev.c)
                               && history == old(history) + [M.Command(CR_SEND_KEEP)]
      ensures old(history) <= history
    {
      hide ChipOk, Flow, Restart, InStep, Recorded, Logged, Linked, Quiet, Tcp, Elapsed;
      ghost var start := dev.c;
      ModesApart(s.mode);
      QuietSelf(start);
      var deadline := clock.Deadline(commandTimeout);
      var poll := clock.StartPoll();
      ghost var at := WriteCommand(CR_SEND_KEEP);
      Undisturbed(start, start, at, s, inSync, begun);
      CommandKeeps(start, at, CR_SEND_KEEP, s, inSync, begun);
      ghost var asked := dev.c;
      ghost var polls;
      r, polls := AwaitKeep(poll, deadline);
      QuietTwice(start, asked, dev.c);
    }

    method AwaitKeep(started: Poll, deadline: nat) returns (r: int, ghost polls: nat)
      requires Valid() && s.health.Healthy? && Tcp(s.mode) && clock.active
      requires started.polls == 0 && started.timeout == FOREVER
      modifies this`s, this`history, dev, clock
      ensures Valid() && s == old(s).(health := s.health) && Quiet(old(dev.c), dev.c)
      ensures r == SOCK_OK ==> s == old(s) && history == old(history)
      ensures history == if s.health.Faulted? then old(history) + [M.Fault] else old(history)
      ensures r == SOCK_OK || r == SOCKERR_TIMEOUT
      ensures r == SOCKERR_TIMEOUT && s.health.Healthy? ==> !dev.c.timeout
      ensures polls <= POLL_MAX
      ensures s.health.Faulted? ==> polls == POLL_MAX || clock.time >= Min(deadline + clock.origin, FOREVER)
    {
      hide ChipOk, Flow, Restart, InStep, Recorded, Logged, Linked, Quiet, Tcp, Datagram, Elapsed;
      ghost var start, was, noted := dev.c, s, history;
      ModesApart(s.mode);
      QuietSelf(start);
      var poll := started;
      polls := 0;
      while true
        invariant Valid() && Quiet(start, dev.c) && s == was && history == noted
        invariant polls == poll.polls < POLL_MAX && poll.timeout == FOREVER
        decreases POLL_MAX - polls
      {
        ghost var before := dev.c;
        var cr := ReadCommand();
        Undisturbed(start, before, dev.c, s, inSync, begun);
        if cr == 0 {
          return SOCK_OK, polls;
        }
        before := dev.c;
        var timeout := StreamTimeout();
        QuietTwice(start, before, dev.c);
        if timeout {
          return SOCKERR_TIMEOUT, polls;
        }
        var expired;
        expired, poll := clock.PollExpired(poll, deadline);
        polls := polls + 1;
        if expired {
          MarkFaulted();
          FaultedIsLinked(s, dev.c, inSync, begun);
          return SOCKERR_TIMEOUT, polls;
        }
      }
    }

    /** wizchip_socket_state_reset_one: forgets everything about the socket, which only then counts
        as healthy again. */
    method Forget()
      requires Valid()
      modifies this`s, this`history
      ensures Valid()
      ensures if sn < SOCKETS then s == FRESH && history == old(history) + [M.Reset]
              else s == old(s) && history == old(history)
    {
      hide ChipOk, InStep, Recorded, Logged;
      if sn < SOCKETS {
        StateReset();
      }
    }
  }
}

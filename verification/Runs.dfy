/**
 Whole runs of one socket: any calls, in any order, with the chip and the clock doing what they please
 in between.  What the history says of a run is what happened in it: it only ever grows, and its
 commands are the ones the chip was given.
 */
module Runs {
  import opened Bytes
  import opened Chip
  import opened Clock
  import opened Codes
  import opened Datagrams
  import opened Locks
  import opened SocketState
  import M = Monitor
  import S = Socket

  /** A call and its arguments; data goes to and comes from one buffer. */
  datatype Request =
    | Open(protocol: byte, port: word, flag: byte)
    | Close
    | Listen
    | Connect(addr: seq<byte>, port: word)
    | Disconnect
    | Send(len: nat)
    | Recv(len: nat)
    | SendTo(len: nat, addr: seq<byte>, port: word)
    | RecvFrom(len: nat, wantsPeer: bool)
    | SetIoMode(mode: byte)
    | GetTxState
    | KeepAlive(timerArmed: bool)
    | Forget

  predicate Suits(request: Request, size: nat) {
    match request
    case Connect(addr, _) => |addr| == 4
    case Send(len) => len <= size
    case Recv(len) => len <= size
    case SendTo(len, addr, _) => len <= size && |addr| == 4
    case RecvFrom(len, _) => len <= size
    case _ => true
  }

  /** The statics after a call, and how long the history was by then. */
  datatype Moment = Moment(s: Statics, events: nat)

  predicate Sound(history: seq<M.Event>, moment: Moment) {
    moment.events <= |history| && Recorded(moment.s, history[..moment.events])
  }

  predicate AllSound(history: seq<M.Event>, trace: seq<Moment>) {
    forall k :: 0 <= k < |trace| ==> Sound(history, trace[k])
  }

  lemma StaysSound(history: seq<M.Event>, later: seq<M.Event>, trace: seq<Moment>)
    requires AllSound(history, trace) && history <= later
    ensures AllSound(later, trace)
  {
    hide Recorded;
    forall k | 0 <= k < |trace| ensures Sound(later, trace[k]) {
      assert Sound(history, trace[k]);
      assert later[..trace[k].events] == history[..trace[k].events];
    }
  }

  /** One call. */
  method Perform(sock: S.Socket, buf: array<byte>, request: Request)
    requires sock.Valid() && Suits(request, buf.Length) && buf.Length < 0x1_0000
    modifies sock`s, sock`history, sock`locks, sock`inSync, sock`begun, sock`anyPort, sock.dev, sock.clock, buf
    ensures sock.Valid() && old(sock.history) <= sock.history
  {
    hide ChipOk, Recorded, Logged, Linked, InStep, SendToOutcome, SendToEvents, RecvFromOutcome, CloseEvents, Stuck,
         Quiet, Moved, Took, DisconnectEvents;
    match request {
      case Open(protocol, port, flag) => var r := sock.Open(protocol, port, flag);
      case Close => var r, shown := sock.Close();
      case Listen => var r := sock.Listen();
      case Connect(addr, port) => var r := sock.Connect(addr, port);
      case Disconnect => var r := sock.Disconnect();
      case Send(len) => var r := sock.Send(buf, 0, len);
      case Recv(len) => var r := sock.Recv(buf, len);
      case SendTo(len, addr, port) => var r, fate := sock.SendTo(buf, len, addr, port);
      case RecvFrom(len, wantsPeer) => var r, peer, end, seen := sock.RecvFrom(buf, len, wantsPeer);
      case SetIoMode(mode) => var r := sock.SetIoMode(mode);
      case GetTxState => var r, state := sock.GetTxState();
      case KeepAlive(timerArmed) => var r := sock.KeepAlive(timerArmed);
      case Forget => sock.Forget();
    }
  }

  /** Any run: after every call the statics agree with a history that only ever grows. */
  method Run(sock: S.Socket, buf: array<byte>, requests: seq<Request>) returns (ghost trace: seq<Moment>)
    requires sock.Valid() && buf.Length < 0x1_0000
    requires forall i :: 0 <= i < |requests| ==> Suits(requests[i], buf.Length)
    modifies sock`s, sock`history, sock`locks, sock`inSync, sock`begun, sock`anyPort, sock.dev, sock.clock, buf
    ensures sock.Valid() && old(sock.history) <= sock.history
    ensures |trace| == |requests| && AllSound(sock.history, trace)
    ensures requests != [] ==> trace[|requests| - 1] == Moment(sock.s, |sock.history|)
    ensures Accounted(sock.history, trace) && M.Commands(sock.history) == sock.dev.c.written
  {
    hide ChipOk, Recorded, Linked, InStep, Suits, AllSound, Accounted;
    trace := [];
    assert AllSound(sock.history, trace) by { NothingYet(sock.history); }
    var i := 0;
    while i < |requests|
      invariant 0 <= i <= |requests| && |trace| == i
      invariant sock.Valid() && old(sock.history) <= sock.history && AllSound(sock.history, trace)
      invariant i > 0 ==> trace[i - 1] == Moment(sock.s, |sock.history|)
    {
      ghost var before := sock.history;
      Perform(sock, buf, requests[i]);
      StaysSound(before, sock.history, trace);
      OneMore(sock.s, sock.history, trace);
      trace := trace + [Moment(sock.s, |sock.history|)];
      i := i + 1;
    }
    RecordedIsGood(sock.s, sock.history);
    WholeRun(sock.history, trace);
  }

  lemma NothingYet(history: seq<M.Event>)
    ensures AllSound(history, [])
  {
  }

  lemma OneMore(s: Statics, history: seq<M.Event>, trace: seq<Moment>)
    requires AllSound(history, trace) && Recorded(s, history)
    ensures AllSound(history, trace + [Moment(s, |history|)])
  {
    assert history[..|history|] == history;
  }

  lemma RecordedIsGood(s: Statics, history: seq<M.Event>)
    requires Recorded(s, history)
    ensures M.Run(history).ok
  {
  }

  // ----- What that means

  /** No command is written to a faulted socket.  While a SEND is not reported, nothing is copied, sent
      or accepted.  Every outcome reports how the one SEND owed has ended.  And after every call, the
      SENDs accepted since the last reset are the outcomes reported and the one pending, if one is; the
      socket is faulted if and only if a fault lies behind it with no reset since; and a local fault
      is a fault. */
  predicate Accounted(history: seq<M.Event>, trace: seq<Moment>) {
    (forall i :: 0 <= i < |history| && history[i].Command? ==> !M.FaultedAt(history, i))
    && (forall i :: 0 <= i < |history| && Unreported(history, i) ==>
          !history[i].Copied? && !history[i].Accepted? && history[i] != M.Command(CR_SEND))
    && (forall i :: 0 <= i < |history| && history[i].Outcome? ==> Owed(history, i))
    && (forall k :: 0 <= k < |trace| && trace[k].events <= |history| ==>
          Settled(history[..trace[k].events], trace[k].s))
  }

  predicate Unreported(history: seq<M.Event>, i: nat)
    requires i <= |history|
  {
    M.AcceptedCount(history[..i]) != M.OutcomeCount(history[..i])
  }

  predicate Owed(history: seq<M.Event>, i: nat)
    requires i < |history| && history[i].Outcome?
  {
    M.AcceptedCount(history[..i]) == M.OutcomeCount(history[..i]) + 1
    && match history[i].end
       case Succeeded => Some(history[i].ret) == M.LastAccepted(history[..i])
       case TimedOut => history[i].ret == SOCKERR_TIMEOUT
       case Abandoned => history[i].ret == SOCKERR_TIMEOUT && M.FaultedAt(history[..i], i)
  }

  predicate Settled(history: seq<M.Event>, s: Statics) {
    M.AcceptedCount(history) == M.OutcomeCount(history) + (if s.txState.Pending? then 1 else 0)
    && (s.health.Faulted? <==> M.FaultedAt(history, |history|))
    && (s.txState.LocalFault? ==> s.health.Faulted?)
  }

  /** Fault containment and send accounting, over any run. */
  lemma WholeRun(history: seq<M.Event>, trace: seq<Moment>)
    requires M.Run(history).ok && AllSound(history, trace)
    ensures Accounted(history, trace)
  {
    forall i | 0 <= i < |history| && history[i].Command? ensures !M.FaultedAt(history, i) {
      M.NoCommandWhileFaulted(history, i);
    }
    forall i | 0 <= i < |history| && Unreported(history, i)
      ensures !history[i].Copied? && !history[i].Accepted? && history[i] != M.Command(CR_SEND)
    {
      M.NothingWhilePending(history, i);
    }
    forall i | 0 <= i < |history| && history[i].Outcome? ensures Owed(history, i) {
      M.OutcomeIsOwed(history, i);
    }
    forall k | 0 <= k < |trace| && trace[k].events <= |history|
      ensures Settled(history[..trace[k].events], trace[k].s)
    {
      assert Sound(history, trace[k]);
      M.SendsAccounted(history[..trace[k].events]);
      M.FaultedMeans(history[..trace[k].events]);
    }
  }

  /** A pending datagram whose timeout another call has taken is never reported: however often it is
      asked for, sendto answers busy, and nothing changes. */
  method AskInVain(sock: S.Socket, buf: array<byte>, len: nat, addr: seq<byte>, port: word, times: nat)
    requires sock.Valid() && 0 < len <= buf.Length && len < 0x1_0000 && |addr| == 4 && sock.sn < SOCKETS
    requires sock.ConfigValid() && Stuck(sock.s, sock.dev.c)
    modifies sock`s, sock`history, sock`locks, sock.dev, sock.clock
    ensures sock.Valid() && Stuck(sock.s, sock.dev.c)
    ensures sock.s == old(sock.s) && sock.history == old(sock.history)
  {
    hide ChipOk, Recorded, Logged, Linked, InStep, Stuck, Quiet;
    var i := 0;
    while i < times
      invariant 0 <= i <= times && sock.Valid() && Stuck(sock.s, sock.dev.c)
      invariant sock.s == old(sock.s) && sock.history == old(sock.history)
    {
      ghost var before := sock.history;
      var r, fate := sock.SendTo(buf, len, addr, port);
      assert r == SOCK_BUSY;
      assert before + [] == before;
      i := i + 1;
    }
  }
}

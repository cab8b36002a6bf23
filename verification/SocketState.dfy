/**
 The per-socket statics of Ethernet/socket.c, how they, the recorded history and the chip agree, and
 what single steps of a call do to that agreement.  Module Socket has the calls themselves.
 */
module SocketState {
  import opened Bytes
  import opened Chip
  import opened Codes
  import opened Sampling
  import M = Monitor

  datatype Health = Healthy | Faulted
  datatype TxState = Idle | Pending | LocalFault

  /** The per-socket statics. */
  datatype Statics = Statics(
    nonblocking: bool, isSending: bool, health: Health, txState: TxState, pendingLen: word,
    remained: word, first: bool, more: bool, mode: byte)

  const SF_NONBLOCK := 0x01
  const SF_MULTI_ENABLE := 0x80
  const SF_IGMP_OR_UNI := 0x30
  const FIRST_ANY_PORT := 0xC000
  const END_ANY_PORT := 0xFFF0

  /** Flags the protocol accepts. */
  function FlagMask(protocol: byte): byte {
    var p := protocol % 16;
    if p == MR_TCP then 0x21 else if p == MR_IPRAW then 0x01 else 0xF1
  }

  predicate FlagsOk(protocol: byte, flag: byte) {
    And(flag, Not(FlagMask(protocol))) == 0
    && (protocol % 16 == MR_UDP && And(flag, SF_IGMP_OR_UNI) != 0 ==> And(flag, SF_MULTI_ENABLE) != 0)
  }

  /** Mode register: the protocol and the hardware flags. */
  function ModeOf(protocol: byte, flag: byte): byte {
    Or(protocol, And(And(flag, Not(SF_NONBLOCK)), 0xF0))
  }

  function OpenStatus(protocol: byte): byte {
    var p := protocol % 16;
    if p == MR_TCP then SR_INIT
    else if p == MR_UDP then SR_UDP
    else if p == MR_IPRAW then SR_IPRAW
    else if p == MR_MACRAW then SR_MACRAW
    else SR_CLOSED
  }

  /** sock_state_reset. */
  const FRESH := Statics(false, false, Healthy, Idle, 0, 0, false, false, 0)

  /** 16-bit subtraction from zero. */
  function Negated(n: int): word {
    Wrap(0 - n)
  }

  predicate Tcp(mode: byte) {
    mode % 4 == 1
  }

  predicate Datagram(mode: byte) {
    FormatOf(mode) != Stream
  }

  lemma ModesApart(mode: byte)
    ensures !(Tcp(mode) && Datagram(mode))
    ensures Tcp(mode) ==> mode != 0
    ensures Datagram(mode) ==> mode != 0
  {
  }

  /** What close_internal leaves in the history, by the status it saw and the result. */
  function CloseEvents(configured: bool, health: Health, shown: byte, r: int): seq<M.Event> {
    if !configured then [M.Reset] + [M.Fault]
    else if health.Faulted? || shown == SR_CLOSED then [M.Reset]
    else [M.Command(CR_CLOSE)] + (if r == SOCKERR_TIMEOUT then [M.Fault] + [M.Reset] + [M.Fault] else [M.Reset])
  }

  /** A disconnect asks at most once, and ends in at most one fault. */
  predicate DisconnectEvents(h: seq<M.Event>, h': seq<M.Event>, health: Health) {
    || (health.Healthy? && (h' == h || h' == h + [M.Command(CR_DISCON)]))
    || (health.Faulted? && (h' == h + [M.Fault] || h' == h + [M.Command(CR_DISCON)] + [M.Fault]))
  }

  lemma LastTwo(h: seq<M.Event>, a: M.Event, b: M.Event)
    ensures (h + [a] + [b])[|h + [a] + [b]| - 2..] == [a, b]
  {
  }

  // ----- Agreement between the driver, its history and the chip

  /** The history is good and says what the statics say. */
  predicate Recorded(s: Statics, history: seq<M.Event>) {
    var w := M.Run(history);
    w.ok && (w.faulted <==> s.health.Faulted?)
    && w.pending == (if s.txState.Pending? then Some(s.pendingLen) else None)
    && (s.txState.LocalFault? ==> s.health.Faulted?)
    && (s.txState.Pending? ==> Datagram(s.mode))
  }

  /** The commands recorded are the ones the chip was given. */
  predicate Logged(history: seq<M.Event>, written: seq<byte>) {
    written == M.Commands(history)
  }

  /** The stream position lies in packet begun - 1, remained bytes before its end. */
  ghost predicate Framed(c: Chip, remained: word, begun: nat) {
    c.format != Stream && begun <= |c.packets| && AllWellFormed(c.format, c.packets)
    && c.taken + remained == |Encoded(c.format, c.packets[..begun])|
    && (remained > 0 ==> begun > 0 && remained <= |c.packets[begun - 1].payload|)
  }

  /** No SEND is outstanding that the driver does not know of. */
  predicate SendsKnown(s: Statics, c: Chip) {
    (s.txState.Idle? ==> c.finished == c.sends)
    && (s.txState.Pending? ==>
          0 < c.sends <= c.finished + 1
          && (c.sendOk ==> c.sendOkOf == c.sends) && (c.timeout ==> c.timeoutOf == c.sends))
  }

  ghost predicate Linked(s: Statics, c: Chip, inSync: bool, begun: nat) {
    s.health.Healthy? && s.mode != 0 ==>
      !ResetsSocket(c.cr) && c.cr != CR_SEND && c.format == FormatOf(s.mode)
      && (FormatOf(s.mode) != Macraw ==> !c.overrun)
      && (Datagram(s.mode) ==> SendsKnown(s, c))
      && (Tcp(s.mode) ==> c.committed == c.taken && !c.torn && s.txState.Idle?)
      && (Datagram(s.mode) && inSync ==> c.committed == c.taken && !c.torn && Framed(c, s.remained, begun))
  }

  /** Without a pending OPEN or CLOSE, what elapses is only flow. */
  lemma OnlyFlow(a: Chip, b: Chip)
    requires Elapsed(a, b) && !ResetsSocket(a.cr)
    ensures Flow(a, b) && !ResetsSocket(b.cr)
  {
  }

  lemma {:induction false} EncodedPrefix(f: Format, a: seq<Packet>, b: seq<Packet>, n: nat)
    requires a <= b && n <= |a| && AllWellFormed(f, b)
    ensures AllWellFormed(f, a) && Encoded(f, a[..n]) == Encoded(f, b[..n])
  {
    assert a[..n] == b[..n];
    assert forall i :: 0 <= i < |a| ==> a[i] == b[i];
  }

  /** The agreement survives whatever the chip does. */
  lemma LinkedElapses(s: Statics, c: Chip, c': Chip, inSync: bool, begun: nat)
    requires ChipOk(c) && Linked(s, c, inSync, begun) && Elapsed(c, c')
    ensures ChipOk(c') && Linked(s, c', inSync, begun)
  {
    if s.health.Healthy? && s.mode != 0 {
      OnlyFlow(c, c');
      if Datagram(s.mode) && inSync {
        EncodedPrefix(c.format, c.packets, c'.packets, begun);
      }
    }
  }

  /** What becomes of a sendto call: nothing was done; the datagram accepted earlier is still pending,
      or its end was reported; the SEND was never accepted; it was accepted and left pending; or it
      was accepted and waited for. */
  datatype Fate =
    | Declined
    | StillPending
    | Reported(end: SendEnd)
    | Unaccepted
    | Queued
    | Finished(end: SendEnd)

  /** What the history gains by a SEND. */
  function Submitted(data: seq<byte>): seq<M.Event> {
    (if data == [] then [] else [M.Copied(|data|)]) + [M.Command(CR_SEND)]
  }

  lemma SubmittedIs(h: seq<M.Event>, data: seq<byte>)
    ensures h + (if data == [] then [] else [M.Copied(|data|)]) + [M.Command(CR_SEND)] == h + Submitted(data)
  {
  }

  function SendToEvents(data: seq<byte>, fate: Fate, r: int): seq<M.Event> {
    match fate
    case Declined => []
    case StillPending => []
    case Reported(end) => [M.Outcome(r, end)]
    case Unaccepted => Submitted(data) + [M.Fault]
    case Queued => Submitted(data) + [M.Accepted(|data|)]
    case Finished(end) =>
      Submitted(data) + [M.Accepted(|data|)]
      + (if end == Abandoned then [M.Fault] else []) + [M.Outcome(r, end)]
  }

  /** The result says how SEND number k ended. */
  predicate Reports(r: int, end: SendEnd, len: nat, c: Chip, k: nat) {
    EndedAs(c, k, end)
    && match end
       case Succeeded => r == len
       case TimedOut => r == SOCKERR_TIMEOUT
       case Abandoned => false
  }

  /** What a sendto call may do, by the state it finds.  On a faulted socket it touches nothing.  On
      a pending one it neither copies nor sends: it reports how the SEND accepted earlier has ended,
      with the length accepted then if that SEND succeeded, or that no event shows yet.  On an idle
      one, unless it is refused, exactly this data is copied and one SEND is asked for: a blocking
      call reports how this very SEND has ended, a nonblocking one leaves it pending, and giving up
      faults the socket. */
  predicate SendToOutcome(s: Statics, c: Chip, s': Statics, c': Chip, configured: bool, data: seq<byte>, r: int,
                          fate: Fate) {
    match fate
    case Declined =>
      s' == s && r <= 0 && (s.mode != 0 && s.health.Healthy? ==> Quiet(c, c') && c'.sends == c.sends)
      && (s.txState.LocalFault? ==> r == SOCKERR_TIMEOUT && c' == c)
      && (s.health.Faulted? && !s.txState.LocalFault? ==> r == SOCKERR_IO && c' == c)
      && (s.health.Healthy? && s.txState.Pending? ==> !configured && r == SOCKERR_TIMEOUT && c' == c)
    case StillPending =>
      s.health.Healthy? && s.txState.Pending? && configured && r == SOCK_BUSY && s' == s
      && Quiet(c, c') && c'.sends == c.sends && !c.sendOk && !c.timeout
    case Reported(end) =>
      s.health.Healthy? && s.txState.Pending? && configured && s' == s.(txState := Idle, pendingLen := 0)
      && Quiet(c, c') && c'.finished == c'.sends == c.sends && Reports(r, end, s.pendingLen, c', c'.sends)
    case Unaccepted =>
      Transmits(s, configured) && r == SOCKERR_TIMEOUT && s' == s.(health := Faulted, txState := LocalFault)
    case Queued =>
      Transmits(s, configured) && s.nonblocking && r == SOCK_BUSY && |data| < 0x1_0000
      && s' == s.(txState := Pending, pendingLen := |data|)
      && Moved(c, c', data) && c'.sends == c.sends + 1 && NoNewOverrun(s, c, c', data)
    case Finished(end) =>
      Transmits(s, configured) && !s.nonblocking && |data| < 0x1_0000
      && Moved(c, c', data) && c'.sends == c.sends + 1 && NoNewOverrun(s, c, c', data)
      && if end == Abandoned then r == SOCKERR_TIMEOUT && s' == s.(health := Faulted, pendingLen := |data|)
         else s' == s.(pendingLen := |data|) && c'.finished == c'.sends && Reports(r, end, |data|, c', c'.sends)
  }

  predicate Transmits(s: Statics, configured: bool) {
    s.health.Healthy? && s.txState.Idle? && Datagram(s.mode) && configured
  }

  /** Only a MACRAW datagram, for which the free space is not looked at, can overrun. */
  predicate NoNewOverrun(s: Statics, c: Chip, c': Chip, data: seq<byte>) {
    !c.overrun && (FormatOf(s.mode) != Macraw || |data| <= TxFree(c)) ==> !c'.overrun
  }

  /** What went before the datagram was quiet. */
  lemma OutcomeLater(s: Statics, a: Chip, b: Chip, s': Statics, c: Chip, data: seq<byte>, r: int, fate: Fate)
    requires s.health.Healthy? && s.txState.Idle? && Quiet(a, b) && b.sends == a.sends
    requires FormatOf(s.mode) == Macraw ==> b == a
    requires SendToOutcome(s, b, s', c, true, data, r, fate)
    ensures SendToOutcome(s, a, s', c, true, data, r, fate)
  {
    Combine(a, b, c, data);
    QuietOverrun(a, b);
    hide Quiet, Moved, EndedAs;
  }

  lemma FaultIsFault(s: Statics, history: seq<M.Event>)
    requires Recorded(s, history)
    ensures s.txState.LocalFault? ==> s.health.Faulted?
  {
  }

  lemma PendingIsDatagram(s: Statics, history: seq<M.Event>)
    requires Recorded(s, history)
    ensures s.txState.Pending? ==> Datagram(s.mode)
  {
  }

  /** A fault changes nothing of what is owed. */
  lemma FaultKeepsPending(s: Statics, history: seq<M.Event>)
    requires Recorded(s, history)
    ensures Recorded(s.(health := Faulted), history + [M.Fault])
  {
    M.RunAppend(history, M.Fault);
  }

  lemma Regroup(h: seq<M.Event>, more: seq<M.Event>, e: M.Event)
    ensures h + more + [e] == h + (more + [e])
  {
  }

  lemma FinishedEvents(h: seq<M.Event>, data: seq<byte>, end: SendEnd, r: int)
    ensures h + (Submitted(data) + [M.Accepted(|data|)]) + (if end == Abandoned then [M.Fault] else [])
              + [M.Outcome(r, end)]
            == h + SendToEvents(data, Finished(end), r)
  {
    hide Submitted;
  }

  lemma Combine(a: Chip, b: Chip, c: Chip, data: seq<byte>)
    requires Quiet(a, b)
    ensures Moved(b, c, data) ==> Moved(a, c, data)
    ensures Quiet(b, c) ==> Quiet(a, c)
  {
  }

  lemma MovesQuiet(a: Chip, b: Chip, c: Chip, data: seq<byte>)
    requires Moved(a, b, data) && Quiet(b, c)
    ensures Moved(a, c, data)
  {
  }

  /** An event, once shown, stays until cleared. */
  lemma EventStays(a: Chip, b: Chip)
    requires Elapsed(a, b)
    ensures a.sendOk ==> b.sendOk
    ensures a.timeout ==> b.timeout
  {
  }

  /** The event showing on a socket that owes a SEND ends that very SEND, which settles the debt. */
  lemma Settles(start: Chip, c: Chip, sendOk: bool, timeout: bool, owing: Statics, len: word, inSync: bool, begun: nat)
    requires ChipOk(c) && Linked(owing, c, inSync, begun) && Quiet(start, c)
    requires owing.health.Healthy? && Datagram(owing.mode) && owing.txState.Pending?
    requires (sendOk && c.sendOk) || (timeout && c.timeout)
    ensures c.finished == c.sends
    ensures sendOk && c.sendOk ==> EndedAs(c, c.sends, Succeeded)
    ensures timeout && c.timeout ==> EndedAs(c, c.sends, TimedOut)
    ensures var c' := Cleared(c, sendOk, timeout);
            Linked(owing.(txState := Idle, pendingLen := len), c', inSync, begun) && Quiet(start, c')
            && c'.finished == c'.sends && c'.sends == c.sends && c'.ended == c.ended
  {
    ModesApart(owing.mode);
  }

  /** A datagram pending whose event has already been taken. */
  predicate Stuck(s: Statics, c: Chip) {
    s.health.Healthy? && Datagram(s.mode) && s.txState.Pending? && c.finished == c.sends && !c.sendOk && !c.timeout
  }

  /** Nothing the chip does on its own ends that. */
  lemma StuckStays(s: Statics, c: Chip, c': Chip, inSync: bool, begun: nat)
    requires ChipOk(c) && Linked(s, c, inSync, begun) && Stuck(s, c) && Elapsed(c, c')
    ensures Stuck(s, c')
  {
    ModesApart(s.mode);
    OnlyFlow(c, c');
  }

  /** It comes about when a call other than sendto takes the timeout of a pending datagram. */
  lemma TakenSticks(s: Statics, c: Chip, inSync: bool, begun: nat)
    requires ChipOk(c) && Linked(s, c, inSync, begun) && c.timeout
    requires s.health.Healthy? && Datagram(s.mode) && s.txState.Pending?
    ensures Stuck(s, Cleared(c, false, true)) && EndedAs(c, c.sends, TimedOut)
  {
    ModesApart(s.mode);
  }

  /** After clearing, no event shows, and none can before the next SEND. */
  lemma StaleCleared(start: Chip, c: Chip, s: Statics, inSync: bool, begun: nat)
    requires ChipOk(start) && Linked(s, start, inSync, begun) && Elapsed(start, c)
    requires s.health.Healthy? && Datagram(s.mode) && s.txState.Idle?
    ensures var c' := Cleared(c, true, true);
            Quiet(start, c') && Linked(s, c', inSync, begun) && c'.cr != CR_SEND && !ResetsSocket(c'.cr)
            && c'.finished == c'.sends == start.sends && !c'.sendOk && !c'.timeout && c'.format != Stream
            && c.cr == c'.cr && c'.overrun == c.overrun == start.overrun
  {
    ModesApart(s.mode);
    QuietSelf(start);
    Undisturbed(start, start, c, s, inSync, begun);
    OnlyFlow(start, c);
  }

  lemma LocalFaultRecorded(s: Statics, s': Statics, history: seq<M.Event>)
    requires Recorded(s, history) && s.health.Faulted? && s.txState.Idle? && s' == s.(txState := LocalFault)
    ensures Recorded(s', history)
  {
  }

  /** An accepted datagram leaves the receive side in step and a SEND owed. */
  lemma DatagramOwed(start: Chip, end: Chip, data: seq<byte>, s: Statics, inSync: bool, begun: nat)
    requires ChipOk(end) && Linked(s, start, inSync, begun) && s.health.Healthy? && Datagram(s.mode)
    requires Moved(start, end, data) && end.cr == 0 && |data| < 0x1_0000
    requires start.committed == start.taken ==> end.committed == end.taken
    requires 0 < end.sends <= end.finished + 1
    requires (end.sendOk ==> end.sendOkOf == end.sends) && (end.timeout ==> end.timeoutOf == end.sends)
    requires FormatOf(s.mode) != Macraw ==> !end.overrun
    ensures Linked(s.(txState := Pending, pendingLen := |data|), end, inSync, begun)
  {
    ModesApart(s.mode);
    if inSync {
      EncodedPrefix(start.format, start.packets, end.packets, begun);
    }
  }

  /** The whole of it: clearing, copying, SEND, acceptance. */
  lemma DatagramSent(start: Chip, cleared: Chip, copied: Chip, data: seq<byte>, at: Chip, end: Chip,
                     s: Statics, inSync: bool, begun: nat)
    requires ChipOk(start) && Linked(s, start, inSync, begun) && Elapsed(start, cleared)
    requires s.health.Healthy? && Datagram(s.mode) && s.txState.Idle? && |data| < 0x1_0000
    requires Elapsed(Cleared(cleared, true, true), copied) && copied.tx.Size() > 0
    requires Elapsed(Filled(copied, data), at)
    requires Elapsed(Commanded(at, CR_SEND), end) && end.cr == 0 && ChipOk(end)
    requires FormatOf(s.mode) != Macraw ==> |data| <= TxFree(start)
    ensures Moved(start, end, data) && end.sends == start.sends + 1
    ensures !start.overrun && |data| <= TxFree(start) ==> !end.overrun
    ensures Linked(s.(txState := Pending, pendingLen := |data|), end, inSync, begun)
  {
    hide Commanded;
    OverrunKnown(s, start, inSync, begun);
    hide ChipOk, Linked, Elapsed, Quiet, Moved, Datagram, Cleared, Filled, TxFree, ResetsSocket, SendsKnown,
         Framed, AllWellFormed, Encoded, FormatOf;
    var empty := Cleared(cleared, true, true);
    StaleCleared(start, cleared, s, inSync, begun);
    if !start.overrun && |data| <= TxFree(start) {
      DatagramFits(start, cleared, copied, data, at, end);
    }
    SendMoves(empty, copied, data, at, end);
    QuietMoves(start, empty, end, data);
    DatagramOwed(empty, end, data, s, inSync, begun);
  }

  lemma DatagramFits(start: Chip, cleared: Chip, copied: Chip, data: seq<byte>, at: Chip, end: Chip)
    requires ChipOk(start) && !start.overrun && |data| <= TxFree(start) && Elapsed(start, cleared)
    requires !ResetsSocket(cleared.cr) && cleared.cr != CR_SEND
    requires Elapsed(Cleared(cleared, true, true), copied) && copied.tx.Size() > 0
    requires Elapsed(Filled(copied, data), at)
    requires Elapsed(Commanded(at, CR_SEND), end)
    ensures !end.overrun
  {
    ElapsedIsOk(start, cleared);
    hide ChipOk, Elapsed, TxFree, Filled;
    FreeOnlyGrows(start, cleared);
    ClearedOk(cleared);
    SendFits(Cleared(cleared, true, true), copied, data, at, end);
  }

  lemma NoMoreSends(s: Statics, a: Chip, b: Chip, inSync: bool, begun: nat)
    requires Linked(s, a, inSync, begun) && s.health.Healthy? && s.mode != 0 && (a == b || Elapsed(a, b))
    ensures b.sends == a.sends
  {
    if a != b {
      OnlyFlow(a, b);
    }
  }

  /** The driver has copied the next n bytes out. */
  predicate TookOut(a: Chip, b: Chip, n: nat) {
    b.sent == a.sent && b.overrun == a.overrun
    && b.taken == a.taken + n <= |b.arrived| && !b.torn
    && b.epoch == a.epoch && b.format == a.format
    && a.drained <= b.drained && a.arrived <= b.arrived && a.packets <= b.packets
  }

  /** And the chip knows. */
  predicate Took(a: Chip, b: Chip, n: nat) {
    TookOut(a, b, n) && b.committed == b.taken
  }

  lemma QuietTakes(a: Chip, b: Chip, c: Chip, n: nat)
    requires Quiet(a, b) && Took(b, c, n)
    ensures Took(a, c, n) && b.taken == a.taken
    ensures n == 0 && Settled(b) ==> Quiet(a, c)
  {
  }

  lemma StreamSettled(s: Statics, c: Chip, inSync: bool, begun: nat)
    requires Linked(s, c, inSync, begun) && s.health.Healthy? && Tcp(s.mode)
    ensures Settled(c) && c.cr != CR_SEND && s.mode != 0 && !c.overrun
  {
    ModesApart(s.mode);
  }

  lemma StreamHealthy(s: Statics, history: seq<M.Event>, c: Chip, inSync: bool, begun: nat)
    requires Linked(s, c, inSync, begun) && s.health.Healthy? && Tcp(s.mode)
    ensures s.txState.Idle?
  {
    ModesApart(s.mode);
  }

  lemma UnreadGrows(s: Statics, a: Chip, b: Chip, inSync: bool, begun: nat)
    requires ChipOk(a) && Linked(s, a, inSync, begun) && s.health.Healthy? && Tcp(s.mode) && Elapsed(a, b)
    ensures |a.arrived| - a.taken <= |b.arrived| - b.taken
  {
    ModesApart(s.mode);
    OnlyFlow(a, b);
  }

  /** Copy, RECV, acceptance: the bytes are taken, and the chip knows. */
  lemma TakeMoves(start: Chip, copied: Chip, n: nat, at: Chip, end: Chip)
    requires ChipOk(start) && Settled(start) && start.cr != CR_SEND && n <= |start.arrived| - start.taken
    requires Elapsed(start, copied) && Elapsed(if n == 0 then copied else CopyOut(copied, n), at)
    requires Elapsed(Commanded(at, CR_RECV), end) && end.cr == 0
    ensures Took(start, end, n) && end.sends == start.sends
    ensures EventStep(start, end)
  {
    hide ChipOk, Restart, AllWellFormed;
    OnlyFlow(start, copied);
    var emptied := if n == 0 then copied else CopyOut(copied, n);
    OnlyFlow(emptied, at);
    assert at.taken == start.taken + n && !at.torn;
    OnlyFlow(Commanded(at, CR_RECV), end);
  }

  /** Without the acceptance, the bytes are taken all the same. */
  lemma TakesOut(start: Chip, copied: Chip, n: nat, at: Chip, end: Chip)
    requires ChipOk(start) && Settled(start) && start.cr != CR_SEND && n <= |start.arrived| - start.taken
    requires Elapsed(start, copied) && Elapsed(if n == 0 then copied else CopyOut(copied, n), at)
    requires Elapsed(Commanded(at, CR_RECV), end)
    ensures TookOut(start, end, n) && (n == 0 ==> Settled(end))
  {
    hide ChipOk, Restart, AllWellFormed;
    OnlyFlow(start, copied);
    var emptied := if n == 0 then copied else CopyOut(copied, n);
    OnlyFlow(emptied, at);
    assert at.taken == start.taken + n && !at.torn;
    OnlyFlow(Commanded(at, CR_RECV), end);
  }

  lemma ClearedTakes(a: Chip, b: Chip, n: nat)
    requires TookOut(a, b, n)
    ensures TookOut(a, Cleared(b, false, true), n)
    ensures Settled(b) ==> Settled(Cleared(b, false, true))
  {
  }

  /** A RECV that shows as pending after it was written. */
  lemma StillAsked(at: Chip, late: Chip, end: Chip)
    requires !ResetsSocket(at.cr) && Elapsed(Commanded(at, CR_RECV), late) && late.cr != 0 && Elapsed(late, end)
    ensures late.cr == CR_RECV && end.taken == late.taken == at.taken
  {
    OnlyFlow(Commanded(at, CR_RECV), late);
    OnlyFlow(late, end);
  }

  lemma StreamTaken(start: Chip, end: Chip, n: nat, s: Statics, inSync: bool, begun: nat)
    requires Linked(s, start, inSync, begun) && s.health.Healthy? && Tcp(s.mode)
    requires Took(start, end, n) && end.cr == 0
    ensures Linked(s, end, inSync, begun)
  {
    ModesApart(s.mode);
  }

  /** The whole of it on a stream socket. */
  lemma StreamTakes(start: Chip, copied: Chip, n: nat, at: Chip, end: Chip, s: Statics, inSync: bool, begun: nat)
    requires ChipOk(start) && Linked(s, start, inSync, begun) && s.health.Healthy? && Tcp(s.mode)
    requires n <= |start.arrived| - start.taken
    requires Elapsed(start, copied) && Elapsed(if n == 0 then copied else CopyOut(copied, n), at)
    requires Elapsed(Commanded(at, CR_RECV), end) && end.cr == 0
    ensures Took(start, end, n) && Linked(s, end, inSync, begun) && !CopyOut(copied, n).torn
    ensures copied.arrived[copied.taken..copied.taken + n] == end.arrived[start.taken..end.taken]
  {
    hide ChipOk, Linked, Elapsed, Took, Settled, Commanded, CopyOut, Tcp;
    StreamSettled(s, start, inSync, begun);
    TakeMoves(start, copied, n, at, end);
    StreamTaken(start, end, n, s, inSync, begun);
    ArrivedSlice(start, copied, end, n);
  }

  lemma ArrivedSlice(start: Chip, copied: Chip, end: Chip, n: nat)
    requires Elapsed(start, copied) && Settled(start)
    requires Took(start, end, n) && n <= |start.arrived| - start.taken
    ensures !CopyOut(copied, n).torn
    ensures copied.arrived[copied.taken..copied.taken + n] == end.arrived[start.taken..end.taken]
  {
    OnlyFlow(start, copied);
    assert start.arrived[start.taken..start.taken + n] == copied.arrived[start.taken..start.taken + n];
    assert start.arrived[start.taken..start.taken + n] == end.arrived[start.taken..start.taken + n];
  }

  // ----- Steps of a call, on the chip

  /** Bytes come in and drain, but the driver neither sends nor takes any. */
  predicate Quiet(a: Chip, b: Chip) {
    b.sent == a.sent && b.overrun == a.overrun && b.taken == a.taken && b.torn == a.torn
    && b.epoch == a.epoch && b.format == a.format
    && a.drained <= b.drained && a.arrived <= b.arrived && a.packets <= b.packets
  }

  /** The same, except that the driver has sent data. */
  predicate Moved(a: Chip, b: Chip, data: seq<byte>) {
    b.sent == a.sent + data && b.taken == a.taken && b.torn == a.torn && b.epoch == a.epoch && b.format == a.format
    && a.drained <= b.drained && a.arrived <= b.arrived && a.packets <= b.packets
  }

  lemma QuietSelf(a: Chip)
    ensures Quiet(a, a)
  {
  }

  lemma QuietOverrun(a: Chip, b: Chip)
    requires Quiet(a, b)
    ensures b.overrun == a.overrun
  {
  }

  lemma QuietTwice(a: Chip, b: Chip, c: Chip)
    requires Quiet(a, b) && Quiet(b, c)
    ensures Quiet(a, c)
  {
  }

  lemma QuietMoves(a: Chip, b: Chip, c: Chip, data: seq<byte>)
    requires Quiet(a, b) && Moved(b, c, data)
    ensures Moved(a, c, data)
  {
  }

  lemma MovedNothing(a: Chip, b: Chip, data: seq<byte>)
    requires Moved(a, b, data) && a.overrun == b.overrun
    ensures data == [] ==> Quiet(a, b)
  {
  }

  /** One access inside a call that leaves the socket open. */
  lemma Undisturbed(start: Chip, a: Chip, b: Chip, s: Statics, inSync: bool, begun: nat)
    requires ChipOk(a) && Linked(s, a, inSync, begun) && s.health.Healthy? && s.mode != 0
    requires Quiet(start, a) && Elapsed(a, b)
    ensures ChipOk(b) && Linked(s, b, inSync, begun) && Quiet(start, b)
  {
    LinkedElapses(s, a, b, inSync, begun);
    OnlyFlow(a, b);
  }

  lemma ClearedShows(c: Chip, sendOk: bool, timeout: bool)
    ensures sendOk ==> !Cleared(c, sendOk, timeout).sendOk
    ensures timeout ==> !Cleared(c, sendOk, timeout).timeout
  {
  }

  lemma ClearedKeeps(start: Chip, c: Chip, sendOk: bool, timeout: bool, s: Statics, inSync: bool, begun: nat)
    requires Linked(s, c, inSync, begun) && Quiet(start, c)
    ensures Linked(s, Cleared(c, sendOk, timeout), inSync, begun) && Quiet(start, Cleared(c, sendOk, timeout))
  {
  }

  /** A command that neither sends nor resets leaves an open socket's agreement alone. */
  lemma CommandKeeps(start: Chip, c: Chip, code: byte, s: Statics, inSync: bool, begun: nat)
    requires Linked(s, c, inSync, begun) && Quiet(start, c) && code != CR_SEND && !ResetsSocket(code)
    ensures Linked(s, Commanded(c, code), inSync, begun) && Quiet(start, Commanded(c, code))
  {
  }

  /** Statics that matter to neither history nor chip may change. */
  lemma SameLinks(s: Statics, s': Statics, history: seq<M.Event>, c: Chip, inSync: bool, begun: nat)
    requires Recorded(s, history) && Linked(s, c, inSync, begun)
    requires s' == s.(isSending := s'.isSending, nonblocking := s'.nonblocking)
    ensures Recorded(s', history) && Linked(s', c, inSync, begun)
  {
  }

  /** Copy, SEND, acceptance: the chip has the data and has counted one more SEND. */
  lemma SendMoves(start: Chip, copied: Chip, data: seq<byte>, at: Chip, end: Chip)
    requires !ResetsSocket(start.cr) && start.cr != CR_SEND
    requires Elapsed(start, copied) && copied.tx.Size() > 0
    requires Elapsed(Filled(copied, data), at)
    requires Elapsed(Commanded(at, CR_SEND), end) && end.cr == 0
    ensures Moved(start, end, data) && end.sends == start.sends + 1
    ensures start.committed == start.taken ==> end.committed == end.taken
    ensures start.finished == start.sends && !start.sendOk && !start.timeout && start.format != Stream ==>
              end.sends <= end.finished + 1
              && (end.sendOk ==> end.sendOkOf == end.sends) && (end.timeout ==> end.timeoutOf == end.sends)
  {
    hide ChipOk, Restart;
    OnlyFlow(start, copied);
    var filled := Filled(copied, data);
    FillingSends(copied, data);
    hide Filled;
    OnlyFlow(filled, at);
    OnlyFlow(Commanded(at, CR_SEND), end);
  }

  lemma FillingSends(c: Chip, data: seq<byte>)
    requires c.tx.Size() > 0
    ensures var c' := Filled(c, data);
            c'.sent == c.sent + data && c'.cr == c.cr && c'.taken == c.taken && c'.torn == c.torn
            && c'.committed == c.committed && c'.epoch == c.epoch && c'.format == c.format
            && c'.drained == c.drained && c'.arrived == c.arrived && c'.packets == c.packets
            && c'.sendOk == c.sendOk && c'.timeout == c.timeout && c'.sendOkOf == c.sendOkOf
            && c'.timeoutOf == c.timeoutOf && c'.sends == c.sends && c'.finished == c.finished
  {
    assert data == [] ==> c.sent + data == c.sent;
  }

  /** A payload that fits when it is copied overruns nothing. */
  lemma SendFits(start: Chip, copied: Chip, data: seq<byte>, at: Chip, end: Chip)
    requires ChipOk(start) && !start.overrun && |data| <= TxFree(start)
    requires !ResetsSocket(start.cr) && start.cr != CR_SEND
    requires Elapsed(start, copied) && copied.tx.Size() > 0
    requires Elapsed(Filled(copied, data), at)
    requires Elapsed(Commanded(at, CR_SEND), end)
    ensures !end.overrun
  {
    FreeOnlyGrows(start, copied);
    hide ChipOk, TxFree;
  }

  lemma OverrunKnown(s: Statics, c: Chip, inSync: bool, begun: nat)
    requires Linked(s, c, inSync, begun) && s.health.Healthy? && s.mode != 0
    ensures FormatOf(s.mode) != Macraw ==> !c.overrun
  {
  }

  lemma StreamLinked(start: Chip, end: Chip, data: seq<byte>, s: Statics, inSync: bool, begun: nat)
    requires Linked(s, start, inSync, begun) && s.health.Healthy? && Tcp(s.mode)
    requires Moved(start, end, data) && end.cr == 0 && (start.committed == start.taken ==> end.committed == end.taken)
    requires !end.overrun
    ensures Linked(s, end, inSync, begun)
  {
    ModesApart(s.mode);
  }

  lemma FreshIsLinked(c: Chip, inSync: bool, begun: nat)
    ensures Linked(FRESH, c, inSync, begun)
  {
  }

  lemma FaultedIsLinked(s: Statics, c: Chip, inSync: bool, begun: nat)
    requires s.health.Faulted?
    ensures Linked(s, c, inSync, begun)
  {
  }

  /** On a socket that may not be open: as long as it is, data only comes and goes. */
  predicate QuietIfOpen(s: Statics, a: Chip, b: Chip) {
    s.mode != 0 ==> Quiet(a, b)
  }

  lemma Passing(start: Chip, a: Chip, b: Chip, s: Statics, inSync: bool, begun: nat)
    requires ChipOk(a) && Linked(s, a, inSync, begun) && s.health.Healthy? && Elapsed(a, b)
    requires QuietIfOpen(s, start, a)
    ensures ChipOk(b) && Linked(s, b, inSync, begun) && QuietIfOpen(s, start, b)
  {
    hide ChipOk, Linked, Elapsed;
    LinkedElapses(s, a, b, inSync, begun);
    if s.mode != 0 {
      Undisturbed(start, a, b, s, inSync, begun);
    }
  }

  lemma QuietItself(s: Statics, c: Chip)
    ensures QuietIfOpen(s, c, c)
  {
  }

  lemma PassingTwice(s: Statics, a: Chip, b: Chip, c: Chip)
    requires QuietIfOpen(s, a, b) && QuietIfOpen(s, b, c)
    ensures QuietIfOpen(s, a, c)
  {
  }

  lemma PassingCommand(start: Chip, c: Chip, code: byte, s: Statics, inSync: bool, begun: nat)
    requires Linked(s, c, inSync, begun) && QuietIfOpen(s, start, c) && code != CR_SEND && !ResetsSocket(code)
    ensures Linked(s, Commanded(c, code), inSync, begun) && QuietIfOpen(s, start, Commanded(c, code))
  {
  }

  /** The history constrains only health and transmit state, and a pending SEND the mode. */
  lemma SameRecord(s: Statics, s': Statics, history: seq<M.Event>)
    requires Recorded(s, history)
    requires s'.health == s.health && s'.txState == s.txState && s'.pendingLen == s.pendingLen
    requires s'.mode == s.mode || !s.txState.Pending?
    ensures Recorded(s', history)
  {
  }

  /** Nothing is left of an earlier connection. */
  predicate Reopened(c: Chip) {
    c.cr == 0 && c.format == FormatOf(c.mr) && c.finished == c.sends && c.sent == [] && c.taken == 0
    && c.committed == 0 && !c.torn && !c.overrun
  }

  lemma ModeKept(a: Chip, b: Chip)
    requires Elapsed(a, b)
    ensures b.mr == a.mr
  {
  }

  lemma OpenObeyed(asked: Chip, c: Chip)
    requires asked.cr == CR_OPEN && Elapsed(asked, c) && c.cr == 0
    ensures Reopened(c) && c.mr == asked.mr
  {
  }

  lemma StillFresh(a: Chip, c: Chip)
    requires Reopened(a) && Elapsed(a, c)
    ensures Reopened(c) && c.mr == a.mr
  {
  }

  lemma NewlyOpen(s: Statics, c: Chip)
    requires ChipOk(c) && Reopened(c) && c.mr == s.mode && s.txState.Idle? && s.remained == 0
    ensures Linked(s, c, true, 0)
  {
    assert c.packets[..0] == [];
  }

  /** Every byte read is known to the chip, and none was read that had not arrived. */
  predicate Settled(c: Chip) {
    !ResetsSocket(c.cr) && c.committed == c.taken && !c.torn
  }

  lemma SettledElapses(a: Chip, b: Chip)
    requires ChipOk(a) && Settled(a) && Elapsed(a, b)
    ensures Settled(b) && Flow(a, b) && ChipOk(b) && b.committed == a.committed <= |a.arrived|
  {
    OnlyFlow(a, b);
  }

  lemma SizeHeld(start: Chip, h1: Chip, l1: Chip, h2: Chip, l2: Chip)
    requires ChipOk(start) && Elapsed(start, h1) && Elapsed(h1, l1) && Elapsed(l1, h2) && Elapsed(h2, l2)
    requires Word(High(RxSize(h1)), Low(RxSize(l1))) == Word(High(RxSize(h2)), Low(RxSize(l2)))
    ensures Elapsed(start, l1) && Elapsed(l1, l2)
    ensures Settled(start) ==>
              Word(High(RxSize(h2)), Low(RxSize(l2))) == |l1.arrived| - l1.taken <= |l2.arrived| - l2.taken
  {
    hide ChipOk, Flow, Restart, RxSize, High, Low, Word;
    ElapsedTwice(start, h1, l1);
    ElapsedTwice(l1, h2, l2);
    if Settled(start) {
      SettledElapses(start, h1);
      SettledElapses(h1, l1);
      SettledElapses(l1, h2);
      SettledElapses(h2, l2);
      ReceivedOnlyGrows(h1, l1);
      ReceivedOnlyGrows(l1, h2);
      ReceivedOnlyGrows(h2, l2);
      AgreeingReadsAreTrue(RxSize(h1), RxSize(l1), RxSize(h2), RxSize(l2));
    }
  }

  /** How far the chip is from having nothing more to do: a command, then room to deposit. */
  function Stage(c: Chip): nat {
    if c.cr != 0 then 1 else 0
  }

  function Room(c: Chip): int {
    c.committed + c.rx.Size() - |c.arrived|
  }

  predicate NotAfter(a: Chip, b: Chip) {
    || Stage(b) < Stage(a)
    || (Stage(b) == Stage(a) && 0 <= Room(b) <= Room(a) && (Room(b) == Room(a) ==> RxSize(b) == RxSize(a)))
  }

  lemma ElapsedNotAfter(a: Chip, b: Chip)
    requires ChipOk(a) && Elapsed(a, b)
    ensures NotAfter(a, b)
  {
    if Flow(a, b) && Stage(b) == Stage(a) {
      assert b.committed == a.committed;
    }
  }

  /** A round of reads that disagree has seen the register move. */
  lemma RoundMoves(a: Chip, h1: Chip, l1: Chip, h2: Chip, l2: Chip, b: Chip)
    requires ChipOk(a) && Elapsed(a, h1) && Elapsed(h1, l1) && Elapsed(l1, h2) && Elapsed(h2, l2) && Elapsed(l2, b)
    requires Word(High(RxSize(h1)), Low(RxSize(l1))) != Word(High(RxSize(h2)), Low(RxSize(l2)))
    ensures Stage(b) < Stage(a) || (Stage(b) == Stage(a) && 0 <= Room(b) < Room(a))
  {
    ElapsedNotAfter(a, h1);
    ElapsedNotAfter(h1, l1);
    ElapsedNotAfter(l1, h2);
    ElapsedNotAfter(h2, l2);
    ElapsedNotAfter(l2, b);
    hide ChipOk, Flow, Restart, RxSize, High, Low, Word, Room, Stage;
  }

  lemma UsedFalls(a: Chip, b: Chip)
    requires Elapsed(a, b)
    ensures b.tx.Used() <= a.tx.Used() && b.tx.Size() == a.tx.Size()
    ensures b.tx.Used() == a.tx.Used() ==> TxFree(b) == TxFree(a)
  {
  }

  /** A round of reads of the free space that disagree has seen the chip drain. */
  lemma FreeRound(a: Chip, h1: Chip, l1: Chip, h2: Chip, l2: Chip, b: Chip)
    requires Elapsed(a, h1) && Elapsed(h1, l1) && Elapsed(l1, h2) && Elapsed(h2, l2) && Elapsed(l2, b)
    requires Word(High(TxFree(h1)), Low(TxFree(l1))) != Word(High(TxFree(h2)), Low(TxFree(l2)))
    ensures b.tx.Used() < a.tx.Used()
  {
    hide Elapsed, TxFree, High, Low, Word;
    UsedFalls(a, h1);
    UsedFalls(h1, l1);
    UsedFalls(l1, h2);
    UsedFalls(h2, l2);
    UsedFalls(l2, b);
  }

  /** Two that agree have shown what was truly free, unless bytes have been overrun. */
  lemma FreeHeld(start: Chip, h1: Chip, l1: Chip, h2: Chip, l2: Chip)
    requires ChipOk(start) && Elapsed(start, h1) && Elapsed(h1, l1) && Elapsed(l1, h2) && Elapsed(h2, l2)
    requires Word(High(TxFree(h1)), Low(TxFree(l1))) == Word(High(TxFree(h2)), Low(TxFree(l2)))
    ensures Elapsed(start, l1) && Elapsed(l1, l2)
    ensures !start.overrun ==> Word(High(TxFree(h2)), Low(TxFree(l2))) == TxFree(l1) <= TxFree(l2)
  {
    ElapsedTwice(start, h1, l1);
    ElapsedTwice(l1, h2, l2);
    if !start.overrun {
      ElapsedIsOk(start, h1);
      ElapsedIsOk(h1, l1);
      ElapsedIsOk(l1, h2);
      hide ChipOk, Elapsed, TxFree, High, Low, Word;
      FreeOnlyGrows(start, h1);
      FreeOnlyGrows(h1, l1);
      FreeOnlyGrows(l1, h2);
      FreeOnlyGrows(h2, l2);
      AgreeingReadsAreTrue(TxFree(h1), TxFree(l1), TxFree(h2), TxFree(l2));
    }
  }

  lemma ElapsedIsOk(a: Chip, b: Chip)
    requires Elapsed(a, b)
    ensures ChipOk(b)
  {
  }

  lemma ClearedOk(c: Chip)
    requires ChipOk(c)
    ensures ChipOk(Cleared(c, true, true)) && TxFree(Cleared(c, true, true)) == TxFree(c)
    ensures Cleared(c, true, true).overrun == c.overrun
  {
  }

  function Cleared(c: Chip, sendOk: bool, timeout: bool): Chip {
    c.(sendOk := c.sendOk && !sendOk, timeout := c.timeout && !timeout)
  }
}

/**
 The register block and buffers of one W5500 socket, and what the chip may do to them on its own
 between any two accesses of the driver: drain the transmit ring, deposit into the receive ring,
 carry out the command in the command register, and raise the terminal event of a SEND.
 */
module Chip {
  import opened Bytes
  import opened Ring

  const CR_OPEN := 0x01
  const CR_LISTEN := 0x02
  const CR_CONNECT := 0x04
  const CR_DISCON := 0x08
  const CR_CLOSE := 0x10
  const CR_SEND := 0x20
  const CR_SEND_KEEP := 0x22
  const CR_RECV := 0x40

  const MR_TCP := 0x01
  const MR_UDP := 0x02
  const MR_IPRAW := 0x03
  const MR_MACRAW := 0x04

  /** Received bytes are a stream, or whole packets behind a header. */
  datatype Format = Stream | Udp | Ipraw | Macraw

  function FormatOf(mode: byte): Format {
    var protocol := mode % 16;
    if protocol == MR_UDP then Udp
    else if protocol == MR_IPRAW then Ipraw
    else if protocol == MR_MACRAW then Macraw
    else Stream
  }

  /** A received packet: the peer address (and port) of its header, and its payload. */
  datatype Packet = Packet(source: seq<byte>, payload: seq<byte>)

  function SourceLen(f: Format): nat {
    match f
    case Udp => 6
    case Ipraw => 4
    case _ => 0
  }

  function HeaderLen(f: Format): nat {
    SourceLen(f) + 2
  }

  /** The length field has 16 bits. */
  predicate WellFormed(f: Format, p: Packet) {
    |p.source| == SourceLen(f) && |p.payload| + (if f == Macraw then 2 else 0) < 0x1_0000
  }

  /** The length field counts itself in MACRAW mode. */
  function LengthField(f: Format, p: Packet): word
    requires WellFormed(f, p)
  {
    if f == Macraw then |p.payload| + 2 else |p.payload|
  }

  function LengthBytes(w: word): (b: seq<byte>)
    ensures |b| == 2
  {
    [High(w), Low(w)]
  }

  function Encode(f: Format, p: Packet): (e: seq<byte>)
    requires WellFormed(f, p)
    ensures |e| == HeaderLen(f) + |p.payload|
  {
    p.source + LengthBytes(LengthField(f, p)) + p.payload
  }

  predicate AllWellFormed(f: Format, ps: seq<Packet>) {
    forall i :: 0 <= i < |ps| ==> WellFormed(f, ps[i])
  }

  /** The byte stream of some packets. */
  function Encoded(f: Format, ps: seq<Packet>): seq<byte>
    requires AllWellFormed(f, ps)
  {
    if ps == [] then [] else Encoded(f, ps[..|ps| - 1]) + Encode(f, ps[|ps| - 1])
  }

  /** How a SEND ended: with SENDOK, with TIMEOUT, or with the socket reset before either. */
  datatype SendEnd = Succeeded | TimedOut | Abandoned

  /** One socket of the chip.  The rings are what the hardware has; sent and arrived are every byte
      ever put into them since the socket was opened, drained and taken how many have left, and
      committed how many the chip knows to have been read, which is what a RECV tells it.  Sends
      counts accepted SENDs, finished those that have ended and ended how each of them did; sendOkOf
      and timeoutOf tell which SEND raised the event now showing, 0 standing for a timeout of a
      stream connection that is no SEND's.  Written is every command ever written.  Torn records that
      the driver has read past what had arrived, overrun that it has written over bytes not yet
      drained. */
  datatype Chip = Chip(
    tx: Ring, sent: seq<byte>, drained: nat, overrun: bool,
    rx: Ring, arrived: seq<byte>, taken: nat, committed: nat, torn: bool,
    format: Format, packets: seq<Packet>,
    mr: byte, cr: byte, written: seq<byte>,
    sendOk: bool, timeout: bool, sendOkOf: nat, timeoutOf: nat,
    sends: nat, finished: nat, ended: seq<SendEnd>,
    epoch: nat)

  ghost predicate TxOk(c: Chip) {
    RingSize(c.tx.Size()) && c.drained <= |c.sent|
    && (!c.overrun ==> c.tx.Valid() && c.tx.Queue() == c.sent[c.drained..])
  }

  ghost predicate RxOk(c: Chip) {
    RingSize(c.rx.Size()) && c.committed <= c.taken && |c.arrived| <= c.committed + c.rx.Size()
    && (!c.torn ==> c.rx.Valid() && c.taken <= |c.arrived| && c.rx.Queue() == c.arrived[c.taken..])
  }

  ghost predicate PacketsOk(c: Chip) {
    c.format != Stream ==> AllWellFormed(c.format, c.packets) && c.arrived == Encoded(c.format, c.packets)
  }

  /** SEND number k has ended, and this way. */
  predicate EndedAs(c: Chip, k: nat, end: SendEnd) {
    0 < k <= |c.ended| && c.ended[k - 1] == end
  }

  predicate EventsOk(c: Chip) {
    c.finished <= c.sends && |c.ended| == c.finished
    && (c.sendOk ==> EndedAs(c, c.sendOkOf, Succeeded))
    && (c.timeout ==> c.timeoutOf == 0 || EndedAs(c, c.timeoutOf, TimedOut))
  }

  ghost predicate ChipOk(c: Chip) {
    TxOk(c) && RxOk(c) && PacketsOk(c) && EventsOk(c)
  }

  /** The size registers. */
  function TxFree(c: Chip): word {
    Wrap(c.tx.Size() - c.tx.Used())
  }

  function RxSize(c: Chip): word {
    Wrap(|c.arrived| - c.committed)
  }

  predicate ResetsSocket(cr: byte) {
    cr == CR_OPEN || cr == CR_CLOSE
  }

  // ----- What the chip may do on its own

  predicate CommandStep(a: Chip, b: Chip) {
    || (b.cr == a.cr && b.sends == a.sends && b.committed == a.committed)
    || (a.cr != 0 && !ResetsSocket(a.cr) && b.cr == 0
        && b.sends == a.sends + (if a.cr == CR_SEND then 1 else 0)
        && b.committed == if a.cr == CR_RECV then a.taken else a.committed)
  }

  /** An event showing afterwards showed before, or belongs to a SEND not finished before, or is a
      timeout of a stream connection. */
  predicate EventStep(a: Chip, b: Chip) {
    a.finished <= b.finished <= b.sends && a.ended <= b.ended
    && (a.sendOk ==> b.sendOk) && (a.timeout ==> b.timeout)
    && (b.sendOk ==> (a.sendOk && b.sendOkOf == a.sendOkOf) || a.finished < b.sendOkOf <= b.finished)
    && (b.timeout ==> (a.timeout && b.timeoutOf == a.timeoutOf) || a.finished < b.timeoutOf <= b.finished
                      || ((a.format == Stream || b.format == Stream) && b.timeoutOf == 0))
  }

  predicate Fixed(a: Chip, b: Chip) {
    b.mr == a.mr && b.written == a.written && b.tx.Size() == a.tx.Size() && b.rx.Size() == a.rx.Size()
  }

  /** Data flows, and no command that resets the socket is carried out. */
  predicate Flow(a: Chip, b: Chip) {
    Fixed(a, b) && CommandStep(a, b) && EventStep(a, b)
    && b.sent == a.sent && a.drained <= b.drained && b.tx.Used() <= a.tx.Used() && b.overrun == a.overrun
    && a.arrived <= b.arrived && a.packets <= b.packets && b.format == a.format
    && b.taken == a.taken && b.torn == a.torn && b.epoch == a.epoch
  }

  /** OPEN or CLOSE was carried out: the buffers start afresh and no SEND is outstanding. */
  predicate Restart(a: Chip, b: Chip) {
    ResetsSocket(a.cr) && b.cr == 0 && Fixed(a, b) && EventStep(a, b)
    && b.sent == [] && b.drained == 0 && b.tx.Used() == 0 && !b.overrun && b.taken == 0 && b.committed == 0 && !b.torn
    && b.format == FormatOf(b.mr)
    && b.sends == a.sends && b.finished == b.sends && b.epoch == a.epoch + 1
  }

  ghost predicate Elapsed(a: Chip, b: Chip) {
    ChipOk(b) && (Flow(a, b) || Restart(a, b))
  }

  lemma ElapsedSelf(a: Chip)
    requires ChipOk(a)
    ensures Elapsed(a, a)
  {
  }

  lemma FlowTwice(a: Chip, b: Chip, c: Chip)
    requires Flow(a, b) && Flow(b, c)
    ensures Flow(a, c)
  {
  }

  lemma ElapsedTwice(a: Chip, b: Chip, c: Chip)
    requires Elapsed(a, b) && Elapsed(b, c)
    ensures Elapsed(a, c)
  {
    assert c.drained <= |c.sent|;
    hide ChipOk;
    if Flow(a, b) && Flow(b, c) {
      FlowTwice(a, b, c);
    }
  }

  /** Sampling never overstates: whatever happens after a read, the free space only grows. */
  lemma FreeOnlyGrows(a: Chip, b: Chip)
    requires ChipOk(a) && Elapsed(a, b) && !a.overrun
    ensures TxFree(a) <= TxFree(b) && !b.overrun
    ensures TxFree(a) == a.tx.Size() - a.tx.Used() == a.tx.Size() - (|a.sent| - a.drained)
  {
    assert |a.tx.Queue()| == |a.sent| - a.drained && |b.tx.Queue()| == |b.sent| - b.drained;
  }

  /** So does the received size, except when a RECV or a reset is carried out. */
  lemma ReceivedOnlyGrows(a: Chip, b: Chip)
    requires ChipOk(a) && ChipOk(b) && Flow(a, b) && b.committed == a.committed <= |a.arrived|
    ensures RxSize(a) == |a.arrived| - a.committed && RxSize(b) == |b.arrived| - b.committed
    ensures RxSize(a) <= RxSize(b)
  {
  }

  // ----- The single moves of the chip

  function Drain(c: Chip, n: nat): Chip {
    c.(tx := c.tx.Skip(n), drained := c.drained + n)
  }

  lemma DrainTx(c: Chip, n: nat)
    requires TxOk(c) && n <= c.tx.Used() && c.drained + n <= |c.sent|
    ensures TxOk(Drain(c, n)) && Drain(c, n).tx.Used() <= c.tx.Used()
  {
    WrapDifference(c.tx.rd, c.tx.wr, n);
    if !c.overrun {
      SkipDrops(c.tx, n);
      assert c.sent[c.drained..][n..] == c.sent[c.drained + n..];
    }
  }

  lemma DrainElapses(c: Chip, n: nat)
    requires ChipOk(c) && n <= c.tx.Used() && c.drained + n <= |c.sent|
    ensures Elapsed(c, Drain(c, n))
  {
    DrainTx(c, n);
    hide TxOk, Encoded, AllWellFormed;
  }

  function Deposit(c: Chip, data: seq<byte>): Chip
    requires c.rx.Size() > 0
  {
    c.(rx := c.rx.Write(data), arrived := c.arrived + data)
  }

  lemma DepositRx(c: Chip, data: seq<byte>)
    requires RxOk(c) && |c.arrived| + |data| <= c.committed + c.rx.Size()
    ensures RxOk(Deposit(c, data)) && c.arrived <= Deposit(c, data).arrived
  {
    if !c.torn {
      assert |c.rx.Queue()| == c.rx.Used();
      WriteAppends(c.rx, data);
      assert c.arrived[c.taken..] + data == (c.arrived + data)[c.taken..];
    }
  }

  lemma DepositElapses(c: Chip, data: seq<byte>)
    requires ChipOk(c) && c.format == Stream && |c.arrived| + |data| <= c.committed + c.rx.Size()
    ensures Elapsed(c, Deposit(c, data))
  {
    DepositRx(c, data);
    hide RxOk;
  }

  lemma EncodedAppend(f: Format, ps: seq<Packet>, p: Packet)
    requires AllWellFormed(f, ps) && WellFormed(f, p)
    ensures AllWellFormed(f, ps + [p]) && Encoded(f, ps + [p]) == Encoded(f, ps) + Encode(f, p)
  {
    assert (ps + [p])[..|ps|] == ps;
  }

  function DepositPacket(c: Chip, p: Packet): Chip
    requires c.rx.Size() > 0 && WellFormed(c.format, p)
  {
    Deposit(c, Encode(c.format, p)).(packets := c.packets + [p])
  }

  lemma DepositPacketElapses(c: Chip, p: Packet)
    requires ChipOk(c) && c.format != Stream && WellFormed(c.format, p)
    requires |c.arrived| + |Encode(c.format, p)| <= c.committed + c.rx.Size()
    ensures Elapsed(c, DepositPacket(c, p))
  {
    DepositRx(c, Encode(c.format, p));
    EncodedAppend(c.format, c.packets, p);
    hide RxOk, WellFormed, Encode, Encoded;
  }

  /** Carries out a command other than OPEN and CLOSE. */
  function Obey(c: Chip): Chip {
    c.(cr := 0, sends := c.sends + (if c.cr == CR_SEND then 1 else 0),
       committed := if c.cr == CR_RECV then c.taken else c.committed)
  }

  function Reopen(c: Chip): Chip {
    c.(cr := 0, tx := c.tx.(rd := 0, wr := 0), sent := [], drained := 0, overrun := false,
       rx := c.rx.(rd := 0, wr := 0), arrived := [], taken := 0, committed := 0, torn := false,
       format := FormatOf(c.mr), packets := [], finished := c.sends,
       ended := c.ended + seq(if c.finished <= c.sends then c.sends - c.finished else 0, _ => Abandoned),
       epoch := c.epoch + 1)
  }

  lemma ObeyElapses(c: Chip)
    requires ChipOk(c) && c.cr != 0
    ensures Elapsed(c, if ResetsSocket(c.cr) then Reopen(c) else Obey(c))
  {
  }

  /** The oldest SEND not ended yet ends. */
  function Raise(c: Chip, success: bool): Chip
    requires c.finished < c.sends
  {
    var k := c.finished + 1;
    if success then c.(sendOk := true, sendOkOf := k, finished := k, ended := c.ended + [Succeeded])
    else c.(timeout := true, timeoutOf := k, finished := k, ended := c.ended + [TimedOut])
  }

  lemma RaiseElapses(c: Chip, success: bool)
    requires ChipOk(c) && c.finished < c.sends
    ensures Elapsed(c, Raise(c, success))
  {
  }

  /** A stream connection times out: a CONNECT, a DISCON, a keep-alive. */
  function RaiseTimeout(c: Chip): Chip {
    c.(timeout := true, timeoutOf := 0)
  }

  lemma RaiseTimeoutElapses(c: Chip)
    requires ChipOk(c) && c.format == Stream && !c.timeout
    ensures Elapsed(c, RaiseTimeout(c))
  {
  }

  // ----- What the driver does to it

  /** A write to the command register. */
  function Commanded(c: Chip, code: byte): Chip {
    c.(cr := code, written := c.written + [code])
  }

  /** The payload copy of wiz_send_data. */
  function CopyIn(c: Chip, data: seq<byte>): Chip
    requires c.tx.Size() > 0
  {
    c.(tx := c.tx.Write(data), sent := c.sent + data, overrun := c.overrun || |data| > TxFree(c))
  }

  /** wiz_send_data: nothing at all for an empty payload. */
  function Filled(c: Chip, data: seq<byte>): Chip
    requires c.tx.Size() > 0
  {
    if data == [] then c else CopyIn(c, data)
  }

  lemma CopyInTx(c: Chip, data: seq<byte>)
    requires TxOk(c)
    ensures TxOk(CopyIn(c, data))
  {
    if !CopyIn(c, data).overrun {
      assert |c.tx.Queue()| == c.tx.Used();
      WriteAppends(c.tx, data);
      assert c.sent[c.drained..] + data == (c.sent + data)[c.drained..];
    }
  }

  /** A payload within the free space is appended to what is still to be drained. */
  lemma CopyInKeeps(c: Chip, data: seq<byte>)
    requires ChipOk(c)
    ensures ChipOk(CopyIn(c, data))
  {
    CopyInTx(c, data);
    hide TxOk, Encoded, AllWellFormed;
  }

  /** One beyond it takes the place of the oldest byte not yet drained: there is such a byte, and
      what lies there afterwards is the first byte of the payload that did not fit. */
  lemma OverrunHits(c: Chip, data: seq<byte>)
    requires ChipOk(c) && !c.overrun && |data| <= c.tx.Size() && CopyIn(c, data).overrun
    ensures c.drained < |c.sent|
    ensures CopyIn(c, data).tx.mem[c.tx.rd % c.tx.Size()] == data[TxFree(c)]
  {
    assert |c.tx.Queue()| == c.tx.Used();
    OverrunHitsOldest(c.tx, data);
  }

  /** The payload copy of wiz_recv_data. */
  function CopyOut(c: Chip, n: nat): Chip {
    c.(rx := c.rx.Skip(n), taken := c.taken + n, torn := c.torn || c.taken + n > |c.arrived|)
  }

  lemma CopyOutKeeps(c: Chip, n: nat)
    requires ChipOk(c)
    ensures ChipOk(CopyOut(c, n))
    ensures !CopyOut(c, n).torn ==> c.rx.Peek(n) == c.arrived[c.taken..c.taken + n]
  {
    if !CopyOut(c, n).torn {
      assert |c.rx.Queue()| == c.rx.Used();
      PeekIsPrefix(c.rx, n);
      SkipDrops(c.rx, n);
      assert c.arrived[c.taken..][n..] == c.arrived[c.taken + n..];
      assert c.arrived[c.taken..][..n] == c.arrived[c.taken..c.taken + n];
    }
    hide PacketsOk, TxOk, EventsOk;
  }

  /** The chip as the driver reaches it. */
  class Device {
    var c: Chip

    /** Time passes between two accesses: any of the single moves may happen. */
    method Elapse()
      requires ChipOk(c)
      modifies this
      ensures Elapsed(old(c), c) && c.written == old(c.written)
    {
      hide ChipOk, Flow, Restart;
      ghost var start := c;
      Draining();
      ghost var drained := c;
      Reception();
      ElapsedTwice(start, drained, c);
      ghost var received := c;
      Obedience();
      ElapsedTwice(start, received, c);
      ghost var obeyed := c;
      Events();
      ElapsedTwice(start, obeyed, c);
    }

    method Draining()
      requires ChipOk(c)
      modifies this
      ensures Elapsed(old(c), c) && c.written == old(c.written)
    {
      hide ChipOk, Flow, Restart;
      var n := *;
      if 0 <= n <= c.tx.Used() && c.drained + n <= |c.sent| {
        DrainElapses(c, n);
        c := Drain(c, n);
      } else {
        ElapsedSelf(c);
      }
    }

    /** The command register is carried out, or not yet. */
    method Obedience()
      requires ChipOk(c)
      modifies this
      ensures Elapsed(old(c), c) && c.written == old(c.written)
    {
      hide ChipOk, Flow, Restart;
      ElapsedSelf(c);
      var obey := *;
      if obey && c.cr != 0 {
        ObeyElapses(c);
        c := if ResetsSocket(c.cr) then Reopen(c) else Obey(c);
      }
    }

    /** A SEND ends, or a stream connection times out. */
    method Events()
      requires ChipOk(c)
      modifies this
      ensures Elapsed(old(c), c) && c.written == old(c.written)
    {
      hide ChipOk, Flow, Restart;
      ElapsedSelf(c);
      var ends, success, late := *, *, *;
      if ends && c.finished < c.sends {
        RaiseElapses(c, success);
        c := Raise(c, success);
      } else if late && c.format == Stream && !c.timeout {
        RaiseTimeoutElapses(c);
        c := RaiseTimeout(c);
      }
    }

    /** Bytes, or a whole packet, may come in if they fit. */
    method Reception()
      requires ChipOk(c)
      modifies this
      ensures Elapsed(old(c), c) && c.written == old(c.written)
    {
      ElapsedSelf(c);
      if c.format == Stream {
        var data: seq<byte> := *;
        if |c.arrived| + |data| <= c.committed + c.rx.Size() {
          DepositElapses(c, data);
          c := Deposit(c, data);
        }
      } else {
        var p: Packet := *;
        if WellFormed(c.format, p) && |c.arrived| + |Encode(c.format, p)| <= c.committed + c.rx.Size() {
          DepositPacketElapses(c, p);
          c := DepositPacket(c, p);
        }
      }
    }
  }
}

/**
 Packets as they lie in the receive stream of Chip, and recvfrom seen as the receiver of Framing:
 what a header says, where the rest of a packet lies, and what a run of calls hands out.
 */
module Datagrams {
  import opened Bytes
  import opened Chip
  import opened Codes
  import opened Framing
  import opened Ring
  import opened SocketState

  // ----- Packets in the stream

  /** The packet after the first k lies right behind them. */
  lemma {:induction false} PacketPlace(f: Format, ps: seq<Packet>, k: nat)
    requires AllWellFormed(f, ps) && k < |ps|
    ensures Encoded(f, ps[..k]) + Encode(f, ps[k]) == Encoded(f, ps[..k + 1]) <= Encoded(f, ps)
    decreases |ps|
  {
    var n := |ps| - 1;
    assert ps[..k + 1][..k] == ps[..k];
    if k < n {
      PacketPlace(f, ps[..n], k);
      assert ps[..n][..k] == ps[..k] && ps[..n][..k + 1] == ps[..k + 1];
      assert Encoded(f, ps) == Encoded(f, ps[..n]) + Encode(f, ps[n]);
    } else {
      assert ps[..k + 1] == ps;
    }
  }

  /** The header of a packet. */
  function Header(f: Format, p: Packet): (h: seq<byte>)
    requires WellFormed(f, p)
    ensures |h| == HeaderLen(f)
  {
    p.source + LengthBytes(LengthField(f, p))
  }

  lemma EncodeSplits(f: Format, p: Packet)
    requires WellFormed(f, p)
    ensures Encode(f, p) == Header(f, p) + p.payload
  {
  }

  /** A header gives back the source and the payload length. */
  lemma HeaderDecodes(f: Format, p: Packet)
    requires WellFormed(f, p)
    ensures var h, n := Header(f, p), SourceLen(f);
            h[..n] == p.source && Word(h[n], h[n + 1]) == |p.payload| + (if f == Macraw then 2 else 0)
  {
  }

  /** Between packets, with more bytes arrived than taken, the next packet is there as a whole: its
      header first, then its payload. */
  lemma NextPacket(c: Chip, begun: nat)
    requires PacketsOk(c) && Framed(c, 0, begun) && c.taken < |c.arrived|
    ensures begun < |c.packets| && WellFormed(c.format, c.packets[begun])
    ensures var p := c.packets[begun];
            c.taken + HeaderLen(c.format) + |p.payload| <= |c.arrived|
            && c.arrived[c.taken..c.taken + HeaderLen(c.format)] == Header(c.format, p)
  {
    var f, ps := c.format, c.packets;
    assert ps[..|ps|] == ps;
    PacketPlace(f, ps, begun);
    EncodeSplits(f, ps[begun]);
    var before, h := Encoded(f, ps[..begun]), Header(f, ps[begun]);
    assert c.arrived[|before|..|before| + |h|] == h by {
      assert (before + (h + ps[begun].payload))[|before|..|before| + |h|] == h;
    }
  }

  /** With its header taken, a packet is in progress and nothing of it handed out. */
  lemma PacketOpened(c: Chip, c': Chip, begun: nat)
    requires PacketsOk(c') && Framed(c, 0, begun) && begun < |c.packets|
    requires c'.format == c.format && c.packets <= c'.packets && c'.taken == c.taken + HeaderLen(c.format)
    ensures Framed(c', |c'.packets[begun].payload|, begun + 1)
  {
    var f, ps := c.format, c'.packets;
    EncodedPrefix(f, c.packets, ps, begun);
    PacketPlace(f, ps, begun);
    EncodeSplits(f, ps[begun]);
  }

  /** What is left of the packet in progress. */
  function Rest(ps: seq<Packet>, remained: nat, begun: nat): seq<byte> {
    if 0 < begun <= |ps| && 0 < remained <= |ps[begun - 1].payload|
    then ps[begun - 1].payload[|ps[begun - 1].payload| - remained..]
    else []
  }

  /** It is what comes next in the stream. */
  lemma RestArrives(c: Chip, remained: word, begun: nat)
    requires PacketsOk(c) && Framed(c, remained, begun)
    ensures c.taken + remained <= |c.arrived|
    ensures c.arrived[c.taken..c.taken + remained] == Rest(c.packets, remained, begun)
    ensures |Rest(c.packets, remained, begun)| == remained
  {
    hide Encode, Header, WellFormed;
    var f, ps := c.format, c.packets;
    UptoBegun(f, ps, begun);
    if remained > 0 {
      var p := ps[begun - 1];
      PacketPlace(f, ps, begun - 1);
      EncodeSplits(f, p);
      var upto, skipped := Encoded(f, ps[..begun - 1]) + Header(f, p), |p.payload| - remained;
      assert Encoded(f, ps[..begun]) == upto + p.payload;
      hide Encoded;
      TailOf(c.arrived, upto, p.payload, skipped);
    }
  }

  lemma UptoBegun(f: Format, ps: seq<Packet>, begun: nat)
    requires AllWellFormed(f, ps) && begun <= |ps|
    ensures Encoded(f, ps[..begun]) <= Encoded(f, ps)
  {
    if begun < |ps| {
      PacketPlace(f, ps, begun);
    } else {
      assert ps[..begun] == ps;
    }
  }

  lemma TailOf(all: seq<byte>, a: seq<byte>, b: seq<byte>, skipped: nat)
    requires a + b <= all && skipped <= |b|
    ensures all[|a| + skipped..|a| + |b|] == b[skipped..]
  {
    assert (a + b)[|a| + skipped..] == b[skipped..];
  }

  /** Handing out the next n bytes of a packet in progress keeps the framing. */
  lemma PieceTaken(c: Chip, c': Chip, remained: word, begun: nat, n: nat)
    requires PacketsOk(c') && Framed(c, remained, begun) && n <= remained
    requires c'.format == c.format && c.packets <= c'.packets && c'.taken == c.taken + n
    ensures Framed(c', remained - n, begun)
    ensures Rest(c'.packets, remained, begun) == Rest(c.packets, remained, begun)
    ensures Rest(c'.packets, remained - n, begun) == Rest(c.packets, remained, begun)[n..]
    ensures |Rest(c.packets, remained, begun)| == remained
  {
    EncodedPrefix(c.format, c.packets, c'.packets, begun);
    if remained > 0 {
      assert c.packets[begun - 1] == c'.packets[begun - 1];
    }
  }

  // ----- The receiver of Framing

  function Payloads(ps: seq<Packet>): (r: seq<seq<byte>>)
    ensures |r| == |ps|
  {
    seq(|ps|, i requires 0 <= i < |ps| => ps[i].payload)
  }

  /** The rest of the packet in progress, and the packets behind it. */
  function View(ps: seq<Packet>, remained: nat, begun: nat): Receiver
    requires begun <= |ps|
  {
    Receiver(Rest(ps, remained, begun), Payloads(ps[begun..]))
  }

  /** Opening a packet and handing out its first bytes is one step of the receiver. */
  lemma OpensOne(ps: seq<Packet>, begun: nat, len: nat)
    requires begun < |ps| && |ps[begun].payload| < 0x1_0000
    ensures var p := ps[begun].payload;
            var n := Min(len, |p|);
            var v := View(ps, 0, begun);
            Ready(v) && Receive(v, len) == (View(ps, |p| - n, begun + 1), Delivery(true, p[..n]))
  {
    var p := ps[begun].payload;
    var n := Min(len, |p|);
    assert Payloads(ps[begun..])[1..] == Payloads(ps[begun + 1..]);
    assert Rest(ps, |p| - n, begun + 1) == p[n..];
  }

  /** Handing out more of a packet in progress is one as well. */
  lemma ContinuesOne(ps: seq<Packet>, remained: nat, begun: nat, len: nat)
    requires 0 < begun <= |ps| && 0 < remained <= |ps[begun - 1].payload|
    ensures var n := Min(len, remained);
            var v := View(ps, remained, begun);
            Ready(v) && Receive(v, len) == (View(ps, remained - n, begun), Delivery(false, v.current[..n]))
  {
    var n := Min(len, remained);
    var current := Rest(ps, remained, begun);
    assert |current| == remained;
    assert Rest(ps, remained - n, begun) == current[n..];
  }

  /** A completed call: what it was asked for and handed out, the packets that had arrived when it
      returned, and where it left the socket. */
  datatype Received = Received(len: nat, delivery: Delivery, packets: seq<Packet>, remained: nat, begun: nat)

  predicate CallOk(before: Received, call: Received) {
    before.begun <= |before.packets| && call.begun <= |call.packets| && before.packets <= call.packets
    && var v := View(call.packets, before.remained, before.begun);
       Ready(v) && Receive(v, call.len) == (View(call.packets, call.remained, call.begun), call.delivery)
  }

  function Before(calls: seq<Received>, i: nat): Received
    requires i <= |calls|
  {
    if i == 0 then AT_OPEN else calls[i - 1]
  }

  /** Completed calls from the opening of the socket on, with anything arriving in between. */
  predicate CallsOk(calls: seq<Received>) {
    forall i :: 0 <= i < |calls| ==> CallOk(Before(calls, i), calls[i])
  }

  const AT_OPEN := Received(0, Delivery(false, []), [], 0, 0)

  function Lens(calls: seq<Received>): (r: seq<nat>)
    ensures |r| == |calls|
  {
    seq(|calls|, i requires 0 <= i < |calls| => calls[i].len)
  }

  function Pieces(calls: seq<Received>): (r: seq<Delivery>)
    ensures |r| == |calls|
  {
    seq(|calls|, i requires 0 <= i < |calls| => calls[i].delivery)
  }

  /** Packets that arrive later change nothing of what a call does. */
  lemma ViewGrows(ps: seq<Packet>, later: seq<Packet>, remained: nat, begun: nat)
    requires begun <= |ps| && ps <= later
    ensures View(later, remained, begun).current == View(ps, remained, begun).current
    ensures View(later, remained, begun).queued
            == View(ps, remained, begun).queued + Payloads(later[|ps|..])
  {
  }

  lemma CallOkPackets(before: Received, call: Received)
    requires CallOk(before, call)
    ensures before.packets <= call.packets && call.begun <= |call.packets|
  {
  }

  lemma CallOkLater(before: Received, call: Received, later: seq<Packet>)
    requires CallOk(before, call) && call.packets <= later
    ensures var v := View(later, before.remained, before.begun);
            Ready(v) && Receive(v, call.len) == (View(later, call.remained, call.begun), call.delivery)
  {
    ViewGrows(call.packets, later, before.remained, before.begun);
    ViewGrows(call.packets, later, call.remained, call.begun);
    ReceiveLater(View(call.packets, before.remained, before.begun), call.len, Payloads(later[|call.packets|..]));
  }

  lemma LastCall(calls: seq<Received>)
    requires CallsOk(calls) && calls != []
    ensures var n := |calls| - 1;
            CallsOk(calls[..n]) && CallOk(Before(calls, n), calls[n]) && Before(calls[..n], n) == Before(calls, n)
            && Lens(calls) == Lens(calls[..n]) + [calls[n].len]
            && Pieces(calls) == Pieces(calls[..n]) + [calls[n].delivery]
  {
    var n := |calls| - 1;
    hide CallOk;
    assert CallOk(Before(calls, n), calls[n]);
    forall i | 0 <= i < n ensures CallOk(Before(calls[..n], i), calls[..n][i]) {
      assert CallOk(Before(calls, i), calls[i]);
    }
  }

  /** The calls are a run of the receiver over all the packets that have arrived by the end. */
  lemma {:induction false} CallsRun(calls: seq<Received>, later: seq<Packet>)
    requires CallsOk(calls) && Before(calls, |calls|).packets <= later
    ensures var last := Before(calls, |calls|);
            last.begun <= |later|
            && RunsTo(Receiver([], Payloads(later)), Lens(calls), View(later, last.remained, last.begun), Pieces(calls))
    decreases |calls|
  {
    var start := Receiver([], Payloads(later));
    if calls == [] {
      assert later[0..] == later;
    } else {
      hide CallOk, CallsOk, View, Receive, RunsTo, Payloads, Lens, Pieces;
      var n := |calls| - 1;
      LastCall(calls);
      CallOkPackets(Before(calls, n), calls[n]);
      CallsRun(calls[..n], later);
      CallOkLater(Before(calls, n), calls[n], later);
      var mid := View(later, Before(calls, n).remained, Before(calls, n).begun);
      RunsOneMore(start, Lens(calls[..n]), mid, Pieces(calls[..n]), calls[n].len);
    }
  }

  /** Datagram framing, over any run of completed calls with any lengths: the pieces handed out
      regroup into exactly the payloads that arrived, in order and split exactly at the packet
      boundaries, up to the rest of the packet in progress and the packets not opened yet. */
  lemma DatagramsReassemble(calls: seq<Received>)
    requires CallsOk(calls)
    ensures var last := Before(calls, |calls|);
            last.begun <= |last.packets|
            && Completed(Reassemble(Pieces(calls)), Rest(last.packets, last.remained, last.begun))
               == Payloads(last.packets[..last.begun])
  {
    hide CallsOk, RunsTo, View, Reassemble, Rest, CallOk;
    var last := Before(calls, |calls|);
    if calls != [] {
      LastCall(calls);
      CallOkPackets(Before(calls, |calls| - 1), last);
    }
    CallsRun(calls, last.packets);
    Regrouped(last.packets, Lens(calls), last.remained, last.begun, Pieces(calls));
  }

  lemma Regrouped(ps: seq<Packet>, lens: seq<nat>, remained: nat, begun: nat, pieces: seq<Delivery>)
    requires begun <= |ps| && RunsTo(Receiver([], Payloads(ps)), lens, View(ps, remained, begun), pieces)
    ensures Completed(Reassemble(pieces), Rest(ps, remained, begun)) == Payloads(ps[..begun])
  {
    PacketsReassemble(Payloads(ps), lens);
    hide CanRun, State, Deliveries, Completed, Reassemble, Rest;
    assert Payloads(ps) == Payloads(ps[..begun]) + Payloads(ps[begun..]);
    SameHead(Completed(Reassemble(pieces), Rest(ps, remained, begun)), Payloads(ps[..begun]), Payloads(ps[begun..]));
  }

  lemma SameHead(a: seq<seq<byte>>, b: seq<seq<byte>>, rest: seq<seq<byte>>)
    requires a + rest == b + rest
    ensures a == b
  {
    assert |a + rest| == |b + rest|;
    assert (a + rest)[..|a|] == a && (b + rest)[..|a|] == b;
  }

  // ----- What a recvfrom call may do

  /** Longest frame the driver takes in MACRAW mode. */
  const MAX_FRAME := 1514

  predicate Oversized(f: Format, p: Packet) {
    f == Macraw && |p.payload| > MAX_FRAME
  }

  /** The header of the packet at begun has been taken. */
  predicate HeaderTaken(a: Chip, b: Chip, begun: nat, f: Format) {
    Took(a, b, HeaderLen(f)) && begun < |b.packets|
  }

  /** No packet boundary lies where the driver believes one to be. */
  ghost predicate Unframed(c: Chip, remained: word) {
    forall b: nat :: !Framed(c, remained, b)
  }

  /** How a call ended: before any byte was taken; with a piece handed over; with a header, or with a
      piece, copied by a RECV that was not accepted; the same for an empty payload, of which there is
      nothing to copy; on a frame that is too long; on an IPRAW packet without payload. */
  datatype Ending = Refused | Handed | HeaderLost | PieceLost | Unconfirmed | Oversize | EmptyIpraw

  datatype Place = Place(s: Statics, c: Chip, begun: nat)

  /** The RECV had been asked for and not been accepted when last looked at, and the call returned
      busy, or a timeout: having taken a timeout event, or having faulted the socket. */
  predicate NotAccepted(s: Statics, c: Chip, seen: Chip, r: int) {
    seen.cr == CR_RECV && seen.taken == c.taken
    && (|| (r == SOCK_BUSY && s.nonblocking && s.health.Healthy?)
        || (r == SOCKERR_TIMEOUT && (s.health.Healthy? && s.txState.Pending? ==> Stuck(s, c))))
  }

  /** The statics, healthy or not. */
  predicate SameBut(s': Statics, s: Statics) {
    s' == s.(health := s'.health)
  }

  /** A call on a socket in step with its packets.  If it hands a piece over, it has made one step of
      the receiver of Framing, has taken exactly the header (on opening a packet) and the piece from
      the stream, and is still in step.  If it is refused nothing has changed.  It is still in step
      with a packet that had no payload.  Otherwise it is out of step: the place it has reached is no
      packet boundary, except behind the header of a packet without payload, where it merely does
      not know that it has gone past that packet. */
  ghost predicate RecvFromOutcome(p: Place, p': Place, inStep: bool, seen: Chip, len: nat, r: int,
                                  piece: seq<byte>, peer: seq<byte>, end: Ending) {
    var f, first := FormatOf(p.s.mode), p.s.remained == 0;
    var header := if first then HeaderLen(f) else 0;
    match end
    case Refused => inStep && p'.s == p.s && p'.begun == p.begun && Quiet(p.c, p'.c) && r <= 0
    case Handed =>
      inStep && r == |piece| && Took(p.c, p'.c, header + r)
      && CallOk(Received(0, Delivery(false, []), p.c.packets, p.s.remained, p.begun),
                Received(len, Delivery(first, piece), p'.c.packets, p'.s.remained, p'.begun))
      && p'.s == p.s.(remained := p'.s.remained, first := first || p.s.first,
                      more := (!first && p.s.more) || p'.s.remained != 0)
      && (first ==> p.begun < |p'.c.packets|
                    && var opens := p'.c.packets[p.begun];
                       peer == opens.source && !Oversized(f, opens) && !(f == Ipraw && opens.payload == []))
    case HeaderLost =>
      !inStep && first && NotAccepted(p'.s, p'.c, seen, r) && SameBut(p'.s, p.s) && p'.begun == p.begun
      && TookOut(p.c, p'.c, header) && p.begun < |p'.c.packets|
      && (Unframed(p'.c, p'.s.remained) <==> p'.c.packets[p.begun].payload != [])
    case PieceLost =>
      !inStep && NotAccepted(p'.s, p'.c, seen, r) && p'.begun == p.begun + (if first then 1 else 0)
      && (first ==> p.begun < |p'.c.packets| && p'.s.remained == |p'.c.packets[p.begun].payload|)
      && SameBut(p'.s, if first then p.s.(remained := p'.s.remained, first := true, more := false) else p.s)
      && 0 < Min(len, p'.s.remained) && TookOut(p.c, p'.c, header + Min(len, p'.s.remained))
      && Unframed(p'.c, p'.s.remained)
    case Unconfirmed =>
      inStep && first && NotAccepted(p'.s, p'.c, seen, r) && SameBut(p'.s, p.s.(first := true, more := false))
      && p'.begun == p.begun + 1 && HeaderTaken(p.c, p'.c, p.begun, f) && p'.c.packets[p.begun].payload == []
    case Oversize =>
      !inStep && r == SOCKFATAL_PACKLEN && p'.s.mode == 0 && first
      && HeaderTaken(p.c, seen, p.begun, f) && Oversized(f, seen.packets[p.begun])
    case EmptyIpraw =>
      !inStep && r > 0 && p'.s.remained == Wrap(0 - r) && first
      && HeaderTaken(p.c, p'.c, p.begun, f) && f == Ipraw && p'.c.packets[p.begun].payload == []
      && Unframed(p'.c, p'.s.remained)
  }

  /** A call that leaves the socket open is refused exactly if it has copied nothing. */
  lemma RefusedExactly(p: Place, p': Place, inStep: bool, seen: Chip, len: nat, r: int,
                       piece: seq<byte>, peer: seq<byte>, end: Ending)
    requires RecvFromOutcome(p, p', inStep, seen, len, r, piece, peer, end) && len > 0 && end != Oversize
    ensures end == Refused <==> p'.c.taken == p.c.taken
  {
    if end == Handed && p.s.remained > 0 {
      var v := View(p'.c.packets, p.s.remained, p.begun);
      assert Receive(v, len).1 == Delivery(false, piece);
    }
  }

  /** What happened before the packet was looked at was quiet. */
  lemma OutcomeAfterQuiet(s: Statics, a: Chip, b: Chip, begun: nat, p': Place, inStep: bool, seen: Chip, len: nat,
                          r: int, piece: seq<byte>, peer: seq<byte>, end: Ending)
    requires Quiet(a, b) && begun <= |a.packets|
    requires RecvFromOutcome(Place(s, b, begun), p', inStep, seen, len, r, piece, peer, end)
    ensures RecvFromOutcome(Place(s, a, begun), p', inStep, seen, len, r, piece, peer, end)
  {
    hide Stuck, Rest, View, Receive, Ready, Unframed, WellFormed, Encoded;
  }

  // ----- Where a RECV not accepted leaves the driver

  /** Boundaries lie in order, at least a header and a payload apart. */
  lemma {:induction false} BoundariesApart(f: Format, ps: seq<Packet>, i: nat, j: nat)
    requires AllWellFormed(f, ps) && i < j <= |ps|
    ensures |Encoded(f, ps[..i])| + HeaderLen(f) + |ps[j - 1].payload| <= |Encoded(f, ps[..j])|
    decreases j
  {
    PacketPlace(f, ps, j - 1);
    if i < j - 1 {
      BoundariesApart(f, ps, i, j - 1);
    } else {
      assert ps[..i] == ps[..j - 1];
    }
  }

  /** Short of the end of a rest by some bytes that were copied but not counted. */
  lemma UncountedBytes(c: Chip, remained: word, begun: nat, n: nat)
    requires c.format != Stream && AllWellFormed(c.format, c.packets) && begun <= |c.packets|
    requires c.taken + remained == |Encoded(c.format, c.packets[..begun])| + n && 0 < n <= remained
    ensures Unframed(c, remained)
  {
    forall b: nat ensures !Framed(c, remained, b) {
      if begun < b <= |c.packets| {
        BoundariesApart(c.format, c.packets, begun, b);
      } else if b < begun {
        BoundariesApart(c.format, c.packets, b, begun);
      }
    }
  }

  /** Behind a header that was copied but not counted. */
  lemma UncountedHeader(c: Chip, begun: nat)
    requires c.format != Stream && AllWellFormed(c.format, c.packets) && begun < |c.packets|
    requires c.taken == |Encoded(c.format, c.packets[..begun])| + HeaderLen(c.format)
    ensures Unframed(c, 0) <==> c.packets[begun].payload != []
  {
    PacketPlace(c.format, c.packets, begun);
    EncodeSplits(c.format, c.packets[begun]);
    if c.packets[begun].payload == [] {
      assert Framed(c, 0, begun + 1);
    } else {
      forall b: nat ensures !Framed(c, 0, b) {
        if begun + 1 < b <= |c.packets| {
          BoundariesApart(c.format, c.packets, begun + 1, b);
        } else if b < begun {
          BoundariesApart(c.format, c.packets, b, begun);
        }
      }
    }
  }

  lemma HeaderUncounted(start: Chip, c: Chip, begun: nat)
    requires ChipOk(start) && ChipOk(c) && Framed(start, 0, begun) && start.taken < |start.arrived|
    requires TookOut(start, c, HeaderLen(start.format))
    ensures begun < |c.packets| && (Unframed(c, 0) <==> c.packets[begun].payload != [])
  {
    assert PacketsOk(start) && PacketsOk(c);
    hide ChipOk, Encoded, Unframed;
    NextPacket(start, begun);
    EncodedPrefix(c.format, start.packets, c.packets, begun);
    UncountedHeader(c, begun);
  }

  lemma PieceUncounted(start: Chip, c: Chip, remained: word, begun: nat, n: nat)
    requires ChipOk(start) && ChipOk(c) && Framed(start, remained, begun) && 0 < n <= remained
    requires TookOut(start, c, n)
    ensures Unframed(c, remained)
  {
    assert PacketsOk(start) && PacketsOk(c);
    hide ChipOk, Encoded, Unframed;
    EncodedPrefix(c.format, start.packets, c.packets, begun);
    UncountedBytes(c, remained, begun, n);
  }

  /** Nothing to copy, nothing lost: a RECV for an empty payload need not be accepted. */
  lemma NothingUncounted(start: Chip, c: Chip, begun: nat)
    requires ChipOk(c) && Framed(start, 0, begun) && TookOut(start, c, 0)
    ensures Framed(c, 0, begun)
  {
    assert PacketsOk(c);
    hide ChipOk;
    EncodedPrefix(c.format, start.packets, c.packets, begun);
  }

  /** The stale size subtracted from nothing leaves a remainder that ends at no boundary. */
  lemma StaleRemainder(start: Chip, c: Chip, begun: nat, size: word)
    requires ChipOk(c) && Framed(start, 0, begun) && TookOut(start, c, 0) && size > 0
    ensures Unframed(c, Negated(size))
  {
    assert PacketsOk(c);
    hide ChipOk, Encoded, Unframed;
    EncodedPrefix(c.format, start.packets, c.packets, begun);
    UncountedBytes(c, Negated(size), begun, Negated(size));
  }

  // ----- A nonblocking call that finds its RECV not accepted

  /** A UDP socket just opened, with 1 KB each way. */
  function Opened(): Chip {
    var ring := Ring(seq(0x400, _ => 0), 0, 0);
    Chip(ring, [], 0, false, ring, [], 0, 0, false, Udp, [], MR_UDP, 0, [], false, false, 0, 0, 0, 0, [], 0)
  }

  /** One byte from somebody. */
  function OneByte(): Packet {
    Packet([10, 0, 0, 1, 0, 7], [42])
  }

  /** Its arrival, and the header copied out with a RECV that the chip has not accepted yet. */
  function HeaderCopied(): Chip {
    Commanded(CopyOut(DepositPacket(Opened(), OneByte()), 8), CR_RECV)
  }

  lemma OpenedOk()
    ensures ChipOk(Opened())
  {
    var c := Opened();
    assert c.rx.Queue() == [] && c.tx.Queue() == [];
    assert c.sent[c.drained..] == [] && c.arrived[c.taken..] == [];
  }

  lemma OneByteArrives()
    ensures var d := DepositPacket(Opened(), OneByte());
            ChipOk(d) && Framed(d, 0, 0) && d.packets == [OneByte()] && d.arrived == Encode(Udp, OneByte())
            && d.taken == 0 && d.format == Udp && d.committed == 0 && !d.torn
  {
    hide ChipOk, Elapsed, EventsOk;
    OpenedOk();
    var c, p := Opened(), OneByte();
    DepositPacketElapses(c, p);
    ElapsedIsOk(c, DepositPacket(c, p));
    var d := DepositPacket(c, p);
    assert d.packets == [p] && d.packets[..0] == [];
    assert Encoded(Udp, []) == [];
    assert [] + Encode(Udp, p) == Encode(Udp, p);
  }

  /** There the nonblocking call returns busy.  The driver takes itself to be between packets, but no
      packet begins where it stands; the size register still shows nine bytes, and a header read from
      there reaches past everything that has arrived. */
  lemma BusyLosesPlace()
    ensures ChipOk(DepositPacket(Opened(), OneByte())) && Framed(DepositPacket(Opened(), OneByte()), 0, 0)
    ensures ChipOk(HeaderCopied()) && !HeaderCopied().torn && Unframed(HeaderCopied(), 0)
    ensures RxSize(HeaderCopied()) == 9 && CopyOut(HeaderCopied(), 8).torn
  {
    hide ChipOk, Unframed, Framed, DepositPacket;
    OneByteArrives();
    var d := DepositPacket(Opened(), OneByte());
    assert |d.arrived| == 9;
    CopyOutKeeps(d, 8);
    CommandedOk(CopyOut(d, 8), CR_RECV);
    HeaderBehind(HeaderCopied());
  }

  lemma CommandedOk(c: Chip, code: byte)
    requires ChipOk(c)
    ensures ChipOk(Commanded(c, code))
  {
  }

  lemma HeaderBehind(c: Chip)
    requires ChipOk(c) && c.format == Udp && c.packets == [OneByte()] && c.taken == 8
    ensures Unframed(c, 0)
  {
    assert PacketsOk(c) && c.packets[..0] == [];
    assert Encoded(Udp, []) == [];
    hide ChipOk, Unframed;
    UncountedHeader(c, 0);
  }

  /** A RECV that shows as pending is the one just written. */
  lemma RecvPending(start: Chip, copied: Chip, n: nat, at: Chip, late: Chip, end: Chip, end': Chip,
                    s: Statics, begun: nat)
    requires Linked(s, start, false, begun) && s.health.Healthy? && Datagram(s.mode)
    requires Elapsed(start, copied) && Elapsed(if n == 0 then copied else CopyOut(copied, n), at)
    requires Elapsed(Commanded(at, CR_RECV), late) && late.cr != 0 && Elapsed(late, end)
    requires end' == end || end' == Cleared(end, false, true)
    ensures late.cr == CR_RECV && late.taken == end'.taken
  {
    ModesApart(s.mode);
    hide ChipOk, Restart, Linked;
    LooseCommand(start, s, begun);
    OnlyFlow(start, copied);
    OnlyFlow(if n == 0 then copied else CopyOut(copied, n), at);
    StillAsked(at, late, end);
  }

  /** So a call that gives it up has seen it not accepted. */
  lemma TakeRefused(start: Chip, copied: Chip, n: nat, at: Chip, late: Chip, end: Chip, c: Chip,
                    s: Statics, s': Statics, r: int, begun: nat)
    requires ChipOk(start) && Linked(s, start, false, begun) && s.health.Healthy? && Datagram(s.mode)
    requires Elapsed(start, copied) && Elapsed(if n == 0 then copied else CopyOut(copied, n), at)
    requires Elapsed(Commanded(at, CR_RECV), late) && late.cr != 0 && Elapsed(late, end)
    requires (r == SOCK_BUSY && c == end && s' == s && s.nonblocking)
             || (r == SOCKERR_TIMEOUT && s' == s && end.timeout && c == Cleared(end, false, true))
             || (r == SOCKERR_TIMEOUT && s' == s.(health := Faulted) && c == end)
    ensures NotAccepted(s', c, late, r) && SameBut(s', s)
  {
    hide ChipOk, Flow, Restart, Linked, Datagram, Elapsed, Cleared, Stuck, CopyOut, Commanded;
    RecvPending(start, copied, n, at, late, end, c, s, begun);
    if r == SOCKERR_TIMEOUT && s' == s && s.txState.Pending? {
      ElapsedTwice(Commanded(at, CR_RECV), late, end);
      LooselyTaken(start, copied, n, at, end, end, s, begun);
      ElapsedIsOk(late, end);
      TakenSticks(s, end, false, begun);
    }
  }

  /** The bytes are copied, whether or not the RECV is accepted. */
  lemma TakenOut(start: Chip, copied: Chip, n: nat, at: Chip, late: Chip, end: Chip, c: Chip, s: Statics, begun: nat)
    requires Linked(s, start, false, begun) && s.health.Healthy? && Datagram(s.mode)
    requires ChipOk(start) && Settled(start) && n <= |start.arrived| - start.taken
    requires Elapsed(start, copied) && Elapsed(if n == 0 then copied else CopyOut(copied, n), at)
    requires Elapsed(Commanded(at, CR_RECV), late) && Elapsed(late, end)
    requires c == end || c == Cleared(end, false, true)
    ensures TookOut(start, c, n) && (n == 0 ==> Settled(c))
  {
    hide ChipOk, Flow, Restart, Linked, Elapsed, Cleared, TookOut, Settled, CopyOut, Commanded;
    ElapsedTwice(Commanded(at, CR_RECV), late, end);
    LooseCommand(start, s, begun);
    TakesOut(start, copied, n, at, end);
    ClearedTakes(start, end, n);
  }

  lemma DatagramSettled(s: Statics, c: Chip, begun: nat)
    requires ChipOk(c) && Linked(s, c, true, begun) && s.health.Healthy? && Datagram(s.mode)
    ensures Settled(c) && PacketsOk(c) && Framed(c, s.remained, begun) && c.format == FormatOf(s.mode) && s.mode != 0
            && begun <= |c.packets|
  {
    ModesApart(s.mode);
  }

  lemma PacketsStay(s: Statics, a: Chip, b: Chip, begun: nat)
    requires Linked(s, a, true, begun) && s.health.Healthy? && Datagram(s.mode) && Elapsed(a, b)
    ensures |a.arrived| - a.taken <= |b.arrived| - b.taken
  {
    ModesApart(s.mode);
    OnlyFlow(a, b);
  }

  lemma WithoutSync(s: Statics, c: Chip, inSync: bool, begun: nat)
    requires Linked(s, c, inSync, begun)
    ensures Linked(s, c, false, begun)
  {
  }

  lemma LooseAnywhere(s: Statics, c: Chip, begun: nat, begun': nat)
    requires Linked(s, c, false, begun)
    ensures Linked(s, c, false, begun')
  {
  }

  lemma SameLooseLinks(s: Statics, s': Statics, c: Chip, begun: nat)
    requires Linked(s, c, false, begun)
    requires s' == s.(remained := s'.remained, first := s'.first, more := s'.more)
    ensures Linked(s', c, false, begun)
  {
  }

  lemma InSyncAgain(s: Statics, c: Chip, begun: nat, begun': nat)
    requires Linked(s, c, false, begun) && Settled(c) && Framed(c, s.remained, begun')
    ensures Linked(s, c, true, begun')
  {
  }

  lemma LooseCommand(c: Chip, s: Statics, begun: nat)
    requires Linked(s, c, false, begun) && s.health.Healthy? && Datagram(s.mode)
    ensures c.cr != CR_SEND && !ResetsSocket(c.cr)
  {
    ModesApart(s.mode);
  }

  /** Copying bytes out and asking for RECV leaves the rest of the agreement alone. */
  lemma LooselyTaken(start: Chip, copied: Chip, n: nat, at: Chip, end: Chip, end': Chip, s: Statics, begun: nat)
    requires Linked(s, start, false, begun) && s.health.Healthy? && Datagram(s.mode)
    requires ChipOk(start) && Elapsed(start, copied) && Elapsed(if n == 0 then copied else CopyOut(copied, n), at)
    requires Elapsed(Commanded(at, CR_RECV), end) && (end' == end || end' == Cleared(end, false, true))
    ensures Linked(s, end', false, begun)
  {
    hide ChipOk, Flow, Restart, CopyOut, Linked, Datagram;
    LinkedElapses(s, start, copied, false, begun);
    var emptied := if n == 0 then copied else CopyOut(copied, n);
    LooseCopy(copied, n, s, begun);
    LinkedElapses(s, emptied, at, false, begun);
    LooseAsked(at, s, begun);
    LinkedElapses(s, Commanded(at, CR_RECV), end, false, begun);
    LooseCleared(end, s, begun);
  }

  lemma LooseCopy(c: Chip, n: nat, s: Statics, begun: nat)
    requires ChipOk(c) && Linked(s, c, false, begun) && s.health.Healthy? && Datagram(s.mode)
    ensures ChipOk(CopyOut(c, n)) && Linked(s, CopyOut(c, n), false, begun)
  {
    CopyOutKeeps(c, n);
    hide ChipOk;
    ModesApart(s.mode);
  }

  lemma LooseAsked(c: Chip, s: Statics, begun: nat)
    requires ChipOk(c) && Linked(s, c, false, begun) && s.health.Healthy? && Datagram(s.mode)
    ensures ChipOk(Commanded(c, CR_RECV)) && Linked(s, Commanded(c, CR_RECV), false, begun)
  {
    ModesApart(s.mode);
  }

  lemma LooseCleared(c: Chip, s: Statics, begun: nat)
    requires Linked(s, c, false, begun)
    ensures Linked(s, Cleared(c, false, true), false, begun)
  {
  }

  lemma SettledTaken(start: Chip, c: Chip, n: nat)
    requires Took(start, c, n) && c.cr == 0
    ensures Settled(c)
  {
  }

  /** The header taken from the stream gives back the packet's source and length. */
  lemma HeaderRead(start: Chip, c: Chip, begun: nat, h: seq<byte>)
    requires ChipOk(start) && ChipOk(c) && Framed(start, 0, begun) && start.taken < |start.arrived|
    requires Took(start, c, HeaderLen(start.format)) && h == c.arrived[start.taken..c.taken]
    ensures HeaderTaken(start, c, begun, start.format)
    ensures var f, p, n := start.format, c.packets[begun], SourceLen(start.format);
            |h| == n + 2 && h[..n] == p.source
            && Word(h[n], h[n + 1]) == |p.payload| + (if f == Macraw then 2 else 0)
    ensures |c.packets[begun].payload| < 0x1_0000 && Framed(c, |c.packets[begun].payload|, begun + 1)
  {
    assert PacketsOk(start) && PacketsOk(c) && c.format == start.format && start.packets <= c.packets;
    hide Header, LengthField, Encoded, Word, ChipOk, Framed, PacketsOk;
    NextPacket(start, begun);
    var f, p := start.format, start.packets[begun];
    HeaderDecodes(f, p);
    PacketOpened(start, c, begun);
    assert c.packets[begun] == p;
    SameSlice(start.arrived, c.arrived, start.taken, c.taken);
  }

  lemma SameSlice(a: seq<byte>, b: seq<byte>, i: nat, j: nat)
    requires a <= b && i <= j <= |a|
    ensures a[i..j] == b[i..j]
  {
  }

  /** The bytes taken are the next ones of the packet in progress. */
  lemma PieceRead(start: Chip, c: Chip, remained: word, begun: nat, n: nat)
    requires ChipOk(start) && ChipOk(c) && Framed(start, remained, begun) && n <= remained && Took(start, c, n)
    ensures Framed(c, remained - n, begun)
    ensures |Rest(c.packets, remained, begun)| == remained
    ensures c.arrived[start.taken..c.taken] == Rest(c.packets, remained, begun)[..n]
  {
    RestArrives(start, remained, begun);
    PieceTaken(start, c, remained, begun, n);
    assert start.arrived[start.taken..start.taken + remained][..n] == start.arrived[start.taken..start.taken + n];
    assert start.arrived[start.taken..start.taken + n] == c.arrived[start.taken..start.taken + n];
  }

  lemma EmptyTaken(a: Chip, b: Chip, c: Chip, begun: nat, f: Format)
    requires HeaderTaken(a, b, begun, f) && Took(b, c, 0)
    ensures HeaderTaken(a, c, begun, f) && c.packets[begun] == b.packets[begun]
  {
  }

  lemma HeaderThenPiece(a: Chip, b: Chip, c: Chip, begun: nat, f: Format, n: nat)
    requires HeaderTaken(a, b, begun, f) && TookOut(b, c, n)
    ensures TookOut(a, c, HeaderLen(f) + n) && begun < |c.packets| && c.packets[begun] == b.packets[begun]
  {
  }

  /** A header and a piece of its packet make one call. */
  lemma FirstPiece(a: Chip, b: Chip, c: Chip, begun: nat, f: Format, len: nat, n: nat, piece: seq<byte>)
    requires HeaderTaken(a, b, begun, f) && Took(b, c, n) && begun <= |a.packets|
    requires |b.packets[begun].payload| < 0x1_0000 && n == Min(len, |b.packets[begun].payload|)
    requires n <= |Rest(c.packets, |b.packets[begun].payload|, begun + 1)|
    requires piece == Rest(c.packets, |b.packets[begun].payload|, begun + 1)[..n]
    ensures Took(a, c, HeaderLen(f) + n) && begun < |c.packets| && c.packets[begun] == b.packets[begun]
    ensures CallOk(Received(0, Delivery(false, []), a.packets, 0, begun),
                   Received(len, Delivery(true, piece), c.packets, |b.packets[begun].payload| - n, begun + 1))
  {
    hide Rest, View, Receive, Ready;
    assert c.packets[begun] == b.packets[begun];
    WholePacket(c.packets, begun);
    OpensOne(c.packets, begun, len);
  }

  lemma WholePacket(ps: seq<Packet>, begun: nat)
    requires begun < |ps|
    ensures Rest(ps, |ps[begun].payload|, begun + 1) == ps[begun].payload
  {
  }

  /** So does another piece of the packet in progress. */
  lemma NextPiece(a: Chip, c: Chip, remained: word, begun: nat, len: nat, piece: seq<byte>)
    requires Framed(a, remained, begun) && remained > 0 && Took(a, c, Min(len, remained))
    requires |Rest(c.packets, remained, begun)| == remained
    requires piece == Rest(c.packets, remained, begun)[..Min(len, remained)]
    ensures CallOk(Received(0, Delivery(false, []), a.packets, remained, begun),
                   Received(len, Delivery(false, piece), c.packets, remained - Min(len, remained), begun))
  {
    assert c.packets[begun - 1] == a.packets[begun - 1];
    ContinuesOne(c.packets, remained, begun, len);
  }
}

/**
 Datagram reception in the abstract: packets wait in a queue, and every call hands out one piece
 of the packet it is in, or opens the next one.  The receive paths of the W5500 and of the W5300
 are proved to behave like this.
 */
module Framing {
  import opened Bytes

  /** What a receiver still has to hand out: the rest of the packet it is in, and the packets
      behind it.  An empty rest means that the next call opens a packet. */
  datatype Receiver = Receiver(current: seq<byte>, queued: seq<seq<byte>>)

  /** One call: whether it opened a packet, and the bytes it handed out. */
  datatype Delivery = Delivery(first: bool, chunk: seq<byte>)

  predicate Ready(r: Receiver) {
    r.current != [] || r.queued != []
  }

  function Receive(r: Receiver, len: nat): (d: (Receiver, Delivery))
    requires Ready(r)
  {
    var first := r.current == [];
    var packet := if first then r.queued[0] else r.current;
    var n := Min(len, |packet|);
    (Receiver(packet[n..], if first then r.queued[1..] else r.queued), Delivery(first, packet[..n]))
  }

  // ----- Runs of calls with arbitrary lengths

  predicate CanRun(r: Receiver, lens: seq<nat>)
    decreases |lens|, 0
  {
    lens == [] || (CanRun(r, lens[..|lens| - 1]) && Ready(State(r, lens[..|lens| - 1])))
  }

  function State(r: Receiver, lens: seq<nat>): Receiver
    requires CanRun(r, lens)
    decreases |lens|, 1
  {
    if lens == [] then r else Receive(State(r, lens[..|lens| - 1]), lens[|lens| - 1]).0
  }

  function Deliveries(r: Receiver, lens: seq<nat>): seq<Delivery>
    requires CanRun(r, lens)
    decreases |lens|
  {
    if lens == [] then []
    else
      var before := lens[..|lens| - 1];
      Deliveries(r, before) + [Receive(State(r, before), lens[|lens| - 1]).1]
  }

  /** What an application rebuilds from the pieces: a first piece starts a packet, any other one
      extends the last. */
  function Reassemble(ds: seq<Delivery>): seq<seq<byte>> {
    if ds == [] then []
    else
      var before, d := Reassemble(ds[..|ds| - 1]), ds[|ds| - 1];
      if d.first || before == [] then before + [d.chunk]
      else before[|before| - 1 := before[|before| - 1] + d.chunk]
  }

  /** The packets with the last one completed by what is still to be handed out of it. */
  function Completed(packets: seq<seq<byte>>, rest: seq<byte>): seq<seq<byte>> {
    if packets == [] then [] else packets[|packets| - 1 := packets[|packets| - 1] + rest]
  }

  /** For every queue of packets, empty ones included, and every sequence of read lengths: the
      pieces regroup into exactly the packets, in order, the one in progress lacking just the bytes
      not yet handed out. */
  lemma {:induction false} PacketsReassemble(packets: seq<seq<byte>>, lens: seq<nat>)
    requires CanRun(Receiver([], packets), lens)
    ensures var r := State(Receiver([], packets), lens);
            Completed(Reassemble(Deliveries(Receiver([], packets), lens)), r.current) + r.queued == packets
    ensures Reassemble(Deliveries(Receiver([], packets), lens)) == []
            ==> State(Receiver([], packets), lens).current == []
    decreases |lens|
  {
    var start := Receiver([], packets);
    if lens == [] {
      assert [] + packets == packets;
    } else {
      var before, len := lens[..|lens| - 1], lens[|lens| - 1];
      PacketsReassemble(packets, before);
      var r := State(start, before);
      var (r', d) := Receive(r, len);
      var ds := Deliveries(start, before);
      assert Deliveries(start, lens) == ds + [d];
      assert (ds + [d])[..|ds|] == ds;
      hide CanRun, State, Deliveries;
      PieceAdded(Reassemble(ds), r, len);
    }
  }

  /** One more piece leaves the completed packets as they are. */
  lemma PieceAdded(built: seq<seq<byte>>, r: Receiver, len: nat)
    requires Ready(r) && (built == [] ==> r.current == [])
    ensures var (r', d) := Receive(r, len);
            var built' := if d.first || built == [] then built + [d.chunk]
                          else built[|built| - 1 := built[|built| - 1] + d.chunk];
            Completed(built', r'.current) + r'.queued == Completed(built, r.current) + r.queued
  {
    var (r', d) := Receive(r, len);
    if d.first {
      assert d.chunk + r'.current == r.queued[0];
      assert built != [] ==> built[|built| - 1] + [] == built[|built| - 1];
      assert Completed(built, []) == built;
      assert Completed(built + [d.chunk], r'.current) == built + [r.queued[0]];
      assert r.queued == [r.queued[0]] + r.queued[1..];
    } else {
      assert d.chunk + r'.current == r.current;
      var last := built[|built| - 1];
      assert (last + d.chunk) + r'.current == last + r.current;
    }
  }

  /** Every call that is given room makes progress: it opens a packet or hands out a byte. */
  lemma Progress(r: Receiver, len: nat)
    requires Ready(r) && len > 0
    ensures var (r', d) := Receive(r, len);
            d.first || |d.chunk| > 0
    ensures var (r', d) := Receive(r, len);
            |r'.queued| < |r.queued| || (r'.queued == r.queued && |r'.current| < |r.current|)
  {
  }

  /** A run of the receiver, where it leads and what it hands out. */
  predicate RunsTo(start: Receiver, lens: seq<nat>, end: Receiver, pieces: seq<Delivery>) {
    CanRun(start, lens) && State(start, lens) == end && Deliveries(start, lens) == pieces
  }

  lemma RunsOneMore(start: Receiver, lens: seq<nat>, mid: Receiver, pieces: seq<Delivery>, len: nat)
    requires RunsTo(start, lens, mid, pieces) && Ready(mid)
    ensures RunsTo(start, lens + [len], Receive(mid, len).0, pieces + [Receive(mid, len).1])
  {
    assert (lens + [len])[..|lens|] == lens;
  }

  /** Packets that arrive behind the others change nothing of what a call does, or a run. */
  lemma ReceiveLater(r: Receiver, len: nat, more: seq<seq<byte>>)
    requires Ready(r)
    ensures Receive(Receiver(r.current, r.queued + more), len)
            == (Receiver(Receive(r, len).0.current, Receive(r, len).0.queued + more), Receive(r, len).1)
  {
    if r.current == [] {
      assert (r.queued + more)[1..] == r.queued[1..] + more;
    }
  }

  lemma {:induction false} RunsLater(start: Receiver, lens: seq<nat>, end: Receiver, pieces: seq<Delivery>,
                                      more: seq<seq<byte>>)
    requires RunsTo(start, lens, end, pieces)
    ensures RunsTo(Receiver(start.current, start.queued + more), lens,
                   Receiver(end.current, end.queued + more), pieces)
    decreases |lens|
  {
    if lens != [] {
      var before, len := lens[..|lens| - 1], lens[|lens| - 1];
      var mid := State(start, before);
      RunsLater(start, before, mid, Deliveries(start, before), more);
      ReceiveLater(mid, len, more);
    }
  }
}

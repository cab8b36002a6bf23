/**
 The W5300 (Ethernet/W5300/w5300.c and the W5300 branches of recvfrom in Ethernet/socket.c): a byte
 stream carried by FIFOs of 16-bit words.  A read of an odd number of bytes leaves half a word behind;
 the driver saves it and hands it out first the next time.  A write of an odd number of bytes fills
 the last word up with the byte that lies behind the data in memory.
 */
module W5300 {
  import opened Bytes
  import opened Framing

  datatype Datagram = Datagram(ip: seq<byte>, port: word, payload: seq<byte>, pad: byte)

  predicate WellFormed(d: Datagram) {
    |d.ip| == 4 && |d.payload| < 0x1_0000
  }

  /** Words a byte count takes up. */
  function WordsFor(n: nat): nat {
    (n + 1) / 2
  }

  /** The payload packed two bytes to a word, a lone last byte completed by padding. */
  function Packed(bytes: seq<byte>, pad: byte): (ws: seq<word>)
    ensures |ws| == WordsFor(|bytes|)
  {
    seq(WordsFor(|bytes|), i requires 0 <= i < WordsFor(|bytes|) =>
      Word(bytes[2 * i], if 2 * i + 1 < |bytes| then bytes[2 * i + 1] else pad))
  }

  function Header(d: Datagram): (ws: seq<word>)
    requires WellFormed(d)
    ensures |ws| == 4
  {
    [Word(d.ip[0], d.ip[1]), Word(d.ip[2], d.ip[3]), d.port, |d.payload|]
  }

  /** What the chip has put into the FIFO for some datagrams. */
  ghost function Words(ds: seq<Datagram>): seq<word>
    requires forall i :: 0 <= i < |ds| ==> WellFormed(ds[i])
  {
    if ds == [] then [] else Header(ds[0]) + Packed(ds[0].payload, ds[0].pad) + Words(ds[1..])
  }

  function Payloads(ds: seq<Datagram>): (ps: seq<seq<byte>>)
    ensures |ps| == |ds|
  {
    seq(|ds|, i requires 0 <= i < |ds| => ds[i].payload)
  }

  /** The bytes a loop of single-byte steps takes out of the FIFO: one word every other byte. */
  function ByteAt(fifo: seq<word>, i: nat): byte
    requires WordsFor(i + 1) <= |fifo|
  {
    if i % 2 == 0 then High(fifo[i / 2]) else Low(fifo[i / 2])
  }

  /** One step of that loop. */
  lemma NextByte(words: seq<word>, i: nat)
    requires WordsFor(i + 1) <= |words|
    ensures i % 2 == 0 ==>
              WordsFor(i) < |words| && words[WordsFor(i)] == words[i / 2]
              && ByteAt(words, i) == High(words[i / 2]) && words[WordsFor(i)..][1..] == words[WordsFor(i + 1)..]
    ensures i % 2 == 1 ==>
              i / 2 == (i - 1) / 2 && ByteAt(words, i) == Low(words[i / 2]) && WordsFor(i + 1) == WordsFor(i)
  {
  }

  /** The first n bytes the loop takes. */
  ghost function BytesOf(words: seq<word>, n: nat): (b: seq<byte>)
    requires WordsFor(n) <= |words|
    ensures |b| == n
  {
    seq(n, j requires 0 <= j < n => ByteAt(words, j))
  }

  lemma OneByteMore(words: seq<word>, i: nat)
    requires WordsFor(i + 1) <= |words|
    ensures WordsFor(i) <= |words| && BytesOf(words, i + 1) == BytesOf(words, i) + [ByteAt(words, i)]
  {
  }

  lemma WordsForMore(i: nat, n: nat)
    requires i <= n
    ensures WordsFor(i) <= WordsFor(n) && WordsFor(0) == 0
    ensures n > 0 ==> (n - 1) / 2 < WordsFor(n)
  {
  }

  /** Behind an even number of bytes, the words left give the bytes left. */
  lemma PackedByte(bytes: seq<byte>, pad: byte, tail: seq<word>, from: nat, i: nat)
    requires from % 2 == 0 && from + i < |bytes|
    ensures WordsFor(i + 1) <= |Packed(bytes, pad)[WordsFor(from)..] + tail|
    ensures ByteAt(Packed(bytes, pad)[WordsFor(from)..] + tail, i) == bytes[from + i]
    ensures i % 2 == 0 && from + i + 1 < |bytes| ==>
              Low((Packed(bytes, pad)[WordsFor(from)..] + tail)[i / 2]) == bytes[from + i + 1]
  {
    var k := (from + i) / 2;
    var hi, lo := bytes[2 * k], if 2 * k + 1 < |bytes| then bytes[2 * k + 1] else pad;
    assert (Packed(bytes, pad)[WordsFor(from)..] + tail)[i / 2] == Packed(bytes, pad)[k] == Word(hi, lo);
    WordHalves(hi, lo);
  }

  /** What the FIFO holds once n bytes of a payload have been taken from it, byte-wise. */
  ghost function Left(payload: seq<byte>, pad: byte, n: nat, behind: seq<Datagram>): seq<word>
    requires n <= |payload| && forall i :: 0 <= i < |behind| ==> WellFormed(behind[i])
  {
    Packed(payload, pad)[WordsFor(n)..] + Words(behind)
  }

  lemma {:induction false} WordsAppend(ds: seq<Datagram>, d: Datagram)
    requires WellFormed(d) && forall i :: 0 <= i < |ds| ==> WellFormed(ds[i])
    ensures Words(ds + [d]) == Words(ds) + (Header(d) + Packed(d.payload, d.pad))
    decreases ds
  {
    hide Header, Packed;
    if ds == [] {
      assert ds + [d] == [d] && [d][1..] == [];
    } else {
      assert (ds + [d])[1..] == ds[1..] + [d];
      WordsAppend(ds[1..], d);
    }
  }

  lemma NextHeader(payload: seq<byte>, pad: byte, behind: seq<Datagram>)
    requires behind != [] && forall i :: 0 <= i < |behind| ==> WellFormed(behind[i])
    ensures var d := behind[0];
            Left(payload, pad, |payload|, behind) == Header(d) + Left(d.payload, d.pad, 0, behind[1..])
  {
    var d := behind[0];
    var header, packed, rest := Header(d), Packed(d.payload, d.pad), Words(behind[1..]);
    assert Words(behind) == header + packed + rest;
    assert Packed(payload, pad)[WordsFor(|payload|)..] == [];
    assert packed[WordsFor(0)..] == packed;
    hide Header, Packed, Words, WordsFor;
    assert [] + (header + packed + rest) == header + (packed + rest);
  }

  /** The half word an odd count leaves behind is no word of the FIFO any more. */
  lemma OddStep(payload: seq<byte>, pad: byte, n: nat, behind: seq<Datagram>)
    requires n < |payload| && n % 2 == 1 && forall i :: 0 <= i < |behind| ==> WellFormed(behind[i])
    ensures Left(payload, pad, n, behind) == Left(payload, pad, n + 1, behind)
  {
    assert WordsFor(n) == WordsFor(n + 1);
  }

  /** The first n bytes taken from the words are these. */
  predicate Gives(words: seq<word>, bytes: seq<byte>) {
    WordsFor(|bytes|) <= |words| && forall i :: 0 <= i < |bytes| ==> ByteAt(words, i) == bytes[i]
  }

  /** Taking n more bytes, from an even place on. */
  lemma TakeBytes(payload: seq<byte>, pad: byte, from: nat, n: nat, behind: seq<Datagram>)
    requires from + n <= |payload| && (n > 0 ==> from % 2 == 0)
    requires forall i :: 0 <= i < |behind| ==> WellFormed(behind[i])
    ensures var f := Left(payload, pad, from, behind);
            Gives(f, payload[from..from + n])
            && (n % 2 == 1 && from + n < |payload| ==> Low(f[(n - 1) / 2]) == payload[from + n])
  {
    hide Packed, Words, High, Low, ByteAt;
    var f, words := Left(payload, pad, from, behind), Words(behind);
    forall i | 0 <= i < n
      ensures WordsFor(i + 1) <= |f| && ByteAt(f, i) == payload[from..from + n][i]
    {
      PackedByte(payload, pad, words, from, i);
    }
    if n > 0 {
      assert WordsFor(n - 1 + 1) <= |f|;
      PackedByte(payload, pad, words, from, n - 1);
    }
  }

  lemma BytesGiven(words: seq<word>, n: nat)
    requires WordsFor(n) <= |words|
    ensures Gives(words, BytesOf(words, n))
  {
  }

  lemma DropBytes(payload: seq<byte>, pad: byte, from: nat, n: nat, behind: seq<Datagram>)
    requires from + n <= |payload| && (n > 0 ==> from % 2 == 0)
    requires forall i :: 0 <= i < |behind| ==> WellFormed(behind[i])
    ensures var f := Left(payload, pad, from, behind);
            WordsFor(n) <= |f| && f[WordsFor(n)..] == Left(payload, pad, from + n, behind)
  {
    var packed := Packed(payload, pad);
    assert WordsFor(from + n) == WordsFor(from) + WordsFor(n);
    hide Packed, Words, WordsFor;
    DropTwice(packed, WordsFor(from), WordsFor(n), Words(behind));
  }

  lemma DropTwice(packed: seq<word>, a: nat, b: nat, tail: seq<word>)
    requires a + b <= |packed|
    ensures (packed[a..] + tail)[b..] == packed[a + b..] + tail
  {
  }

  /** The registers that matter to the byte stream, and what they stand for: the packet being
      handed out, how much of it has been, and the packets behind it. */
  datatype Reception = Reception(fifo: seq<word>, remained: int, fifoByte: bool, saved: byte,
                                 payload: seq<byte>, pad: byte, delivered: nat, behind: seq<Datagram>)

  /** The FIFO holds what the words taken so far have left; an odd count in mid-packet has its
      second half saved, and is flagged exactly then. */
  ghost predicate Consistent(s: Reception) {
    s.delivered <= |s.payload| < 0x1_0000 && s.remained == |s.payload| - s.delivered
    && (forall i :: 0 <= i < |s.behind| ==> WellFormed(s.behind[i]))
    && s.fifo == Left(s.payload, s.pad, s.delivered, s.behind)
    && (s.fifoByte <==> s.delivered % 2 == 1 && s.remained != 0)
    && (s.fifoByte ==> s.saved == s.payload[s.delivered])
  }

  function AfterWords(s: Reception, n: nat): Reception
    requires WordsFor(n) <= |s.fifo|
  {
    s.(fifo := s.fifo[WordsFor(n)..],
       saved := if n == 0 then s.saved else Low(s.fifo[(n - 1) / 2]),
       remained := s.remained - n, delivered := s.delivered + n,
       fifoByte := s.remained != n && n % 2 == 1)
  }

  lemma WordsStep(s: Reception, n: nat)
    requires Consistent(s) && !s.fifoByte && n <= s.remained && (n > 0 ==> s.delivered % 2 == 0)
    ensures WordsFor(n) <= |s.fifo| && Gives(s.fifo, s.payload[s.delivered..s.delivered + n])
    ensures Consistent(AfterWords(s, n))
  {
    hide Left, Gives, Low, High, Word, WordsFor, ByteAt, WellFormed;
    TakeBytes(s.payload, s.pad, s.delivered, n, s.behind);
    DropBytes(s.payload, s.pad, s.delivered, n, s.behind);
    Parity(s.delivered, n);
  }

  lemma Parity(delivered: nat, n: nat)
    ensures delivered % 2 == 0 ==> (delivered + n) % 2 == n % 2
  {
  }

  function AfterSaved(s: Reception): Reception {
    s.(remained := s.remained - 1, delivered := s.delivered + 1, fifoByte := false)
  }

  lemma SavedStep(s: Reception)
    requires Consistent(s) && s.fifoByte
    ensures Consistent(AfterSaved(s)) && s.saved == s.payload[s.delivered]
    ensures s.remained > 0 && AfterSaved(s).delivered % 2 == 0
  {
    OddStep(s.payload, s.pad, s.delivered, s.behind);
    hide Left;
  }

  function AfterHeader(s: Reception): Reception
    requires s.behind != [] && 4 <= |s.fifo|
  {
    var d := s.behind[0];
    s.(fifo := s.fifo[4..], saved := Low(s.fifo[3]), remained := |d.payload|, fifoByte := false,
       payload := d.payload, pad := d.pad, delivered := 0, behind := s.behind[1..])
  }

  lemma HeaderStep(s: Reception)
    requires Consistent(s) && s.remained == 0 && s.behind != []
    ensures WellFormed(s.behind[0]) && 4 == WordsFor(8) <= |s.fifo| && Gives(s.fifo, HeadBytes(s.behind[0]))
    ensures Consistent(AfterHeader(s))
  {
    var d := s.behind[0];
    NextHeader(s.payload, s.pad, s.behind);
    HeaderBytes(d, Left(d.payload, d.pad, 0, s.behind[1..]));
    hide Left, Gives, Header, HeadBytes;
  }

  /** A datagram arrives behind the others. */
  function AfterArrival(s: Reception, d: Datagram): Reception
    requires WellFormed(d)
  {
    s.(fifo := s.fifo + (Header(d) + Packed(d.payload, d.pad)), behind := s.behind + [d])
  }

  lemma ArrivalStep(s: Reception, d: Datagram)
    requires Consistent(s) && WellFormed(d)
    ensures Consistent(AfterArrival(s, d))
  {
    WordsAppend(s.behind, d);
    hide Words, Header, WellFormed;
    var words := Header(d) + Packed(d.payload, d.pad);
    var left := Packed(s.payload, s.pad)[WordsFor(s.delivered)..];
    assert left + Words(s.behind) + words == left + (Words(s.behind) + words);
  }

  /** Between packets, the FIFO is empty exactly if no packet is there. */
  lemma NothingThere(s: Reception)
    requires Consistent(s) && s.remained == 0
    ensures s.fifo == [] <==> s.behind == []
  {
    if s.behind != [] {
      HeaderStep(s);
    }
  }

  lemma WordHalves(hi: byte, lo: byte)
    ensures High(Word(hi, lo)) == hi && Low(Word(hi, lo)) == lo
  {
  }

  /** One socket of the chip, and the per-socket statics of the driver. */
  class Socket {
    var fifo: seq<word>
    var remained: nat
    var first: bool
    var more: bool
    var fifoByte: bool
    var saved: byte
    ghost var payload: seq<byte>
    ghost var pad: byte
    ghost var delivered: nat
    ghost var behind: seq<Datagram>

    ghost function Now(): Reception
      reads this
    {
      Reception(fifo, remained, fifoByte, saved, payload, pad, delivered, behind)
    }

    ghost predicate Valid()
      reads this
    {
      Consistent(Now())
    }

    ghost function View(): Receiver
      requires Valid()
      reads this
    {
      Receiver(payload[delivered..], Payloads(behind))
    }

    constructor (ghost arrived: seq<Datagram>, fifo: seq<word>)
      requires forall i :: 0 <= i < |arrived| ==> WellFormed(arrived[i])
      requires fifo == Words(arrived)
      ensures Valid() && View() == Receiver([], Payloads(arrived))
    {
      this.fifo, remained, first, more, fifoByte, saved := fifo, 0, false, false, false, 0;
      payload, pad, delivered, behind := [], 0, 0, arrived;
    }

    /** wiz_recv_data: pops a word for every even byte and keeps the last word's low half. */
    method ReceiveData(buf: array<byte>, off: nat, len: nat)
      requires WordsFor(len) <= |fifo| && off + len <= buf.Length
      modifies this`fifo, this`saved, buf
      ensures fifo == old(fifo)[WordsFor(len)..]
      ensures Gives(old(fifo), buf[off..off + len])
      ensures buf[..off] == old(buf[..off])
      ensures saved == if len == 0 then old(saved) else Low(old(fifo)[(len - 1) / 2])
    {
      hide WordsFor, ByteAt, High, Low, BytesOf, Gives;
      if len == 0 {
        WordsForMore(0, 0);
        BytesGiven(fifo, 0);
        assert buf[off..off] == BytesOf(fifo, 0);
        return;
      }
      ghost var words := fifo;
      WordsForMore(0, len);
      var rd: word := 0;
      var i := 0;
      while i < len
        invariant 0 <= i <= len && WordsFor(i) <= |words|
        invariant fifo == words[WordsFor(i)..]
        invariant i > 0 ==> (i - 1) / 2 < |words| && rd == words[(i - 1) / 2]
        invariant buf[off..off + i] == BytesOf(words, i)
        invariant buf[..off] == old(buf[..off])
        invariant saved == old(saved)
      {
        WordsForMore(i + 1, len);
        WordsForMore(i, i + 1);
        NextByte(words, i);
        OneByteMore(words, i);
        if i % 2 == 0 {
          rd := fifo[0];
          fifo := fifo[1..];
          buf[off + i] := High(rd);
        } else {
          buf[off + i] := Low(rd);
        }
        assert buf[off..off + (i + 1)] == buf[off..off + i] + [buf[off + i]];
        i := i + 1;
      }
      BytesGiven(words, len);
      saved := Low(rd);
    }

    /** The eight header bytes of the next packet. */
    method ReadHeader() returns (head: seq<byte>)
      requires Valid() && remained == 0 && behind != []
      modifies this`fifo, this`saved
      ensures WellFormed(behind[0]) && head == HeadBytes(behind[0])
      ensures 4 <= |old(fifo)| && fifo == old(fifo)[4..] && saved == Low(old(fifo)[3])
    {
      ghost var d := behind[0];
      HeaderStep(Now());
      hide Consistent, Gives, HeadBytes, ByteAt, Low, High, BytesOf, Header, WellFormed;
      var bytes := new byte[8];
      ReceiveData(bytes, 0, 8);
      head := bytes[0..8];
      SameBytes(old(fifo), head, HeadBytes(d));
    }

    /** Reads the header of the next packet: peer address and port, and the payload length. */
    method OpenPacket() returns (ip: seq<byte>, port: word)
      requires Valid() && remained == 0 && behind != []
      modifies this
      ensures Valid() && first && !more
      ensures Now() == AfterHeader(old(Now()))
      ensures ip == old(behind[0].ip) && port == old(behind[0].port)
    {
      hide Words, ByteAt;
      ghost var d := behind[0];
      HeaderStep(Now());
      hide Consistent, Gives, HeadBytes, Low, Word, WellFormed;
      var head := ReadHeader();
      ip := head[..4];
      port := Word(head[4], head[5]);
      remained := Word(head[6], head[7]);
      first, more, fifoByte := true, false, false;
      payload, pad, delivered, behind := d.payload, d.pad, 0, behind[1..];
    }

    /** Hands out n bytes of the packet in progress from the FIFO. */
    method HandOutWords(buf: array<byte>, off: nat, n: nat)
      requires Valid() && !fifoByte && n <= remained && (n > 0 ==> delivered % 2 == 0)
      requires off + n <= buf.Length
      modifies this, buf
      ensures Valid() && payload == old(payload) && behind == old(behind)
      ensures delivered == old(delivered) + n && first == old(first)
      ensures buf[..off] == old(buf[..off]) && buf[off..off + n] == payload[old(delivered)..delivered]
    {
      WordsStep(Now(), n);
      assert |payload[delivered..delivered + n]| == n;
      hide Consistent, Gives, WordsFor, ByteAt, Left, Low, High, Words, Packed, WellFormed, BytesOf;
      ReceiveData(buf, off, n);
      SameBytes(old(fifo), buf[off..off + n], payload[delivered..delivered + n]);
      Advance(n);
      assert Now() == AfterWords(old(Now()), n);
    }

    /** Counts n bytes handed out; an odd count in mid-packet leaves its other half saved. */
    method Advance(n: nat)
      requires n <= remained
      modifies this`remained, this`more, this`fifoByte, this`delivered
      ensures remained == old(remained) - n && delivered == old(delivered) + n
      ensures more == (old(more) || remained != 0)
      ensures fifoByte == (old(fifoByte) || (remained != 0 && n % 2 == 1))
    {
      remained := remained - n;
      delivered := delivered + n;
      if remained != 0 {
        more := true;
        if n % 2 == 1 {
          fifoByte := true;
        }
      }
    }

    /** Hands out a piece of the packet in progress: the saved byte first, if there is one. */
    method HandOut(buf: array<byte>, len: nat) returns (r: nat)
      requires Valid() && 0 < len <= buf.Length
      modifies this, buf
      ensures Valid() && payload == old(payload) && behind == old(behind)
      ensures r == Min(len, old(remained)) && delivered == old(delivered) + r && first == old(first)
      ensures buf[..r] == payload[old(delivered)..delivered]
    {
      var n := Min(len, remained);
      r := n;
      if fifoByte {
        SavedStep(Now());
        assert delivered < |payload|;
        hide Consistent;
        buf[0] := saved;
        n, remained := n - 1, remained - 1;
        fifoByte := false;
        delivered := delivered + 1;
        assert Now() == AfterSaved(old(Now()));
        HandOutWords(buf, 1, n);
        assert buf[..r] == buf[..1] + buf[1..1 + n];
      } else {
        HandOutWords(buf, 0, n);
      }
    }

    /** The UDP branch of recvfrom, a packet being there to read.  Each call is one step of the
        abstract receiver, whatever the length; the byte of an odd read is neither lost nor
        repeated, and the header of the next packet is found word-aligned. */
    method ReceiveFrom(buf: array<byte>, len: nat) returns (r: nat)
      requires Valid() && Ready(View()) && 0 < len <= buf.Length
      modifies this, buf
      ensures Valid() && r <= len
      ensures (View(), Delivery(old(remained) == 0, buf[..r])) == Receive(old(View()), len)
      ensures old(remained) == 0 ==> first
    {
      ghost var before := View();
      if remained == 0 {
        var ip, port := OpenPacket();
        assert Payloads(behind) == before.queued[1..];
        assert payload[0..] == payload;
      }
      ghost var rest := payload[delivered..];
      assert rest == if before.current == [] then before.queued[0] else before.current;
      hide Consistent;
      r := HandOut(buf, len);
      assert buf[..r] == rest[..r] && payload[delivered..] == rest[r..];
    }

    /** A datagram arrives, between two calls. */
    method Arrive(d: Datagram)
      requires Valid() && WellFormed(d)
      modifies this`fifo, this`behind
      ensures Valid()
      ensures View() == Receiver(old(View()).current, old(View()).queued + [d.payload])
    {
      ArrivalStep(Now(), d);
      hide Consistent, Header, Packed;
      fifo := fifo + (Header(d) + Packed(d.payload, d.pad));
      behind := behind + [d];
      assert Now() == AfterArrival(old(Now()), d);
      assert Payloads(behind) == Payloads(old(behind)) + [d.payload];
    }

    /** Any run: datagrams arrive and calls of any lengths are made, in any order; a call that finds
        nothing returns busy.  The pieces handed out regroup into exactly the payloads that arrived,
        in order and split at the packet boundaries, up to the rest of the packet in progress and the
        packets not opened yet. */
    method Serve(buf: array<byte>, script: seq<Event>) returns (ghost pieces: seq<Delivery>)
      requires Valid() && View() == Receiver([], [])
      requires forall i :: 0 <= i < |script| ==> Suits(script[i], buf.Length)
      modifies this, buf
      ensures Valid()
      ensures Completed(Reassemble(pieces), View().current) + View().queued == Arrived(script)
    {
      hide Consistent, RunsTo, Receive, Completed, Reassemble, WellFormed;
      pieces := [];
      ghost var lens: seq<nat> := [];
      ghost var arrived: seq<seq<byte>> := [];
      assert RunsTo(Receiver([], []), [], Receiver([], []), []) by { RunsNowhere(); }
      var i := 0;
      while i < |script|
        invariant 0 <= i <= |script| && Valid()
        invariant arrived == Arrived(script[..i])
        invariant RunsTo(Receiver([], arrived), lens, View(), pieces)
      {
        assert script[..i + 1][..i] == script[..i];
        assert Suits(script[i], buf.Length);
        match script[i] {
          case Arrives(d) =>
            RunsLater(Receiver([], arrived), lens, View(), pieces, [d.payload]);
            Arrive(d);
            arrived := arrived + [d.payload];
          case Asks(len) =>
            var something := Something();
            if something {
              ghost var before, opens := View(), remained == 0;
              var r := ReceiveFrom(buf, len);
              RunsOneMore(Receiver([], arrived), lens, before, pieces, len);
              lens, pieces := lens + [len], pieces + [Delivery(opens, buf[..r])];
            }
        }
        i := i + 1;
      }
      assert script[..|script|] == script;
      RunRegroups(arrived, lens, View(), pieces);
    }

    /** The received size is not zero. */
    method Something() returns (there: bool)
      requires Valid()
      ensures there <==> Ready(View())
    {
      if remained == 0 {
        NothingThere(Now());
      }
      there := remained != 0 || fifo != [];
    }
  }

  /** What may happen on a socket: a datagram arrives, or the application asks for len bytes. */
  datatype Event = Arrives(datagram: Datagram) | Asks(len: nat)

  predicate Suits(event: Event, size: nat) {
    match event
    case Arrives(d) => WellFormed(d)
    case Asks(len) => 0 < len <= size
  }

  /** The payloads that arrived. */
  function Arrived(script: seq<Event>): seq<seq<byte>> {
    if script == [] then []
    else
      var event := script[|script| - 1];
      Arrived(script[..|script| - 1]) + if event.Arrives? then [event.datagram.payload] else []
  }

  lemma RunsNowhere()
    ensures RunsTo(Receiver([], []), [], Receiver([], []), [])
  {
  }

  lemma RunRegroups(packets: seq<seq<byte>>, lens: seq<nat>, end: Receiver, pieces: seq<Delivery>)
    requires RunsTo(Receiver([], packets), lens, end, pieces)
    ensures Completed(Reassemble(pieces), end.current) + end.queued == packets
  {
    PacketsReassemble(packets, lens);
  }

  // ----- Transmission

  /** The transmit FIFO of one socket. */
  class Transmitter {
    var fifo: seq<word>

    constructor ()
      ensures fifo == []
    {
      fifo := [];
    }

    /** wiz_send_data: a word for every two bytes.  After an odd number, the low half of the last word
        is the byte behind the data, wherever that lies: behind is the one behind the whole array,
        which is read exactly if an odd number of bytes ends where the array does. */
    method SendData(buf: array<byte>, off: nat, len: nat, behind: byte) returns (ghost overread: bool)
      requires off + len <= buf.Length
      modifies this
      ensures fifo == old(fifo) + Packed(buf[off..off + len], if off + len < buf.Length then buf[off + len] else behind)
      ensures overread <==> len % 2 == 1 && off + len == buf.Length
    {
      hide Word, Packed;
      overread := false;
      ghost var pad := if off + len < buf.Length then buf[off + len] else behind;
      ghost var all := Packed(buf[off..off + len], pad);
      var i := 0;
      while i < len
        invariant 0 <= i <= len + 1 && i % 2 == 0
        invariant fifo == old(fifo) + all[..WordsFor(Min(i, len))]
        invariant overread <==> i > len && off + len == buf.Length
      {
        WordsForMore(i, len);
        var low := behind;
        if off + i + 1 < buf.Length {
          low := buf[off + i + 1];
        } else {
          overread := true;
        }
        NextWord(buf[off..off + len], pad, i);
        fifo := fifo + [Word(buf[off + i], low)];
        i := i + 2;
      }
      assert all[..WordsFor(len)] == all;
    }
  }

  lemma NextWord(data: seq<byte>, pad: byte, i: nat)
    requires i < |data| && i % 2 == 0
    ensures WordsFor(i) < WordsFor(Min(i + 2, |data|)) <= |Packed(data, pad)|
    ensures Packed(data, pad)[..WordsFor(Min(i + 2, |data|))]
            == Packed(data, pad)[..WordsFor(i)] + [Word(data[i], if i + 1 < |data| then data[i + 1] else pad)]
  {
    hide Word;
    assert WordsFor(i) == i / 2 && WordsFor(Min(i + 2, |data|)) == i / 2 + 1;
  }

  /** The chip, told the length, sends exactly the data: what the last word was filled up with makes
      no difference. */
  lemma SentBytes(data: seq<byte>, pad: byte)
    ensures Gives(Packed(data, pad), data) && BytesOf(Packed(data, pad), |data|) == data
  {
    hide Packed, ByteAt, High, Low;
    var words := Packed(data, pad);
    assert words[WordsFor(0)..] + [] == words;
    forall i | 0 <= i < |data| ensures WordsFor(i + 1) <= |words| && ByteAt(words, i) == data[i] {
      PackedByte(data, pad, [], 0, i);
    }
  }

  lemma SameBytes(words: seq<word>, a: seq<byte>, b: seq<byte>)
    requires Gives(words, a) && Gives(words, b) && |a| == |b|
    ensures a == b
  {
  }

  /** The eight header bytes: address, port, payload length. */
  function HeadBytes(d: Datagram): (bytes: seq<byte>)
    requires WellFormed(d)
    ensures |bytes| == 8 && bytes[..4] == d.ip
    ensures Word(bytes[4], bytes[5]) == d.port && Word(bytes[6], bytes[7]) == |d.payload|
  {
    d.ip + [High(d.port), Low(d.port), High(|d.payload|), Low(|d.payload|)]
  }

  lemma HeaderBytes(d: Datagram, tail: seq<word>)
    requires WellFormed(d)
    ensures Gives(Header(d) + tail, HeadBytes(d)) && (Header(d) + tail)[4..] == tail
  {
    WordHalves(d.ip[0], d.ip[1]);
    WordHalves(d.ip[2], d.ip[3]);
  }
}

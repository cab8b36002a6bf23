/**
 The query printer of Internet/DNS/dns.c and its round trip through the response parser.
 */
module DnsQuery {
  import opened Bytes
  import opened DnsFormat
  import opened DnsParser

  /** Position of the first dot, or the length when there is none (strchr). */
  function FirstDot(name: seq<byte>): (d: nat)
    ensures d <= |name|
    ensures d < |name| ==> name[d] == DOT
    ensures forall i :: 0 <= i < d ==> name[i] != DOT
  {
    if name == [] || name[0] == DOT then 0 else 1 + FirstDot(name[1..])
  }

  function Component(text: seq<byte>): (c: seq<byte>)
    requires |text| < 0x100
    ensures |c| == 1 + |text|
  {
    [|text|] + text
  }

  /** The question name, component by component; printing stops at the first empty one. */
  function EncodeName(name: seq<byte>): (e: seq<byte>)
    requires |name| < MAXCNAME
    ensures 1 <= |e| <= |name| + 2
    decreases |name|, 1
  {
    var d := FirstDot(name);
    Component(name[..d]) + EncodeRest(name, d)
  }

  function EncodeRest(name: seq<byte>, d: nat): (e: seq<byte>)
    requires |name| < MAXCNAME && d <= |name|
    ensures |e| <= |name| - d + if d == 0 then 0 else 1
    decreases |name|, 0
  {
    if d == 0 then [] else if d == |name| then [0] else EncodeName(name[d + 1..])
  }

  /** The opcode is shifted above bit 10 of a uint16_t; bit 8 asks for recursion. */
  function Flags(op: word): word {
    op % 0x20 * 0x800 + 0x100
  }

  lemma ShiftedOpcode(op: word)
    ensures Wrap(op * 0x800) + 0x100 == Flags(op)
  {
    assert op * 0x800 == op / 0x20 * 0x1_0000 + op % 0x20 * 0x800;
  }

  function QueryHeader(id: word, flags: word): (h: seq<byte>)
    ensures |h| == 12
  {
    [High(id), Low(id), High(flags), Low(flags), 0, 1, 0, 0, 0, 0, 0, 0]
  }

  function Query(id: word, op: word, name: seq<byte>): seq<byte>
    requires |name| < MAXCNAME
  {
    QueryHeader(id, Flags(op)) + EncodeName(name) + [0, 1, 0, 1]
  }

  lemma EncodeStep(printed: seq<byte>, dname: seq<byte>)
    requires |dname| < MAXCNAME
    ensures var d := FirstDot(dname);
            printed + EncodeName(dname) == printed + Component(dname[..d]) + EncodeRest(dname, d)
  {
    hide Component, EncodeRest;
  }

  /** The static state of the client: the id of the last message. */
  class Resolver {
    var msgId: word

    constructor ()
      ensures msgId == 0x1122
    {
      msgId := 0x1122;
    }

    method Put16(buf: array<byte>, cp: nat, w: word) returns (next: nat)
      requires cp + 2 <= buf.Length
      modifies buf
      ensures next == cp + 2 && buf[..next] == old(buf[..cp]) + [High(w), Low(w)]
    {
      buf[cp], buf[cp + 1] := High(w), Low(w);
      return cp + 2;
    }

    method PutHeader(op: word, buf: array<byte>) returns (cp: nat)
      requires 12 <= buf.Length
      modifies this, buf
      ensures msgId == Wrap(old(msgId) + 1)
      ensures cp == 12 && buf[..12] == QueryHeader(msgId, Flags(op))
    {
      msgId := Wrap(msgId + 1);
      cp := Put16(buf, 0, msgId);
      ShiftedOpcode(op);
      cp := Put16(buf, cp, Wrap(op * 0x800) + 0x100);
      cp := Put16(buf, cp, 1);
      cp := Put16(buf, cp, 0);
      cp := Put16(buf, cp, 0);
      cp := Put16(buf, cp, 0);
    }

    /** Writes one component: its length, then its n characters. */
    method PutComponent(buf: array<byte>, cp: nat, text: seq<byte>) returns (next: nat)
      requires |text| < 0x100 && cp + |text| < buf.Length
      modifies buf
      ensures next == cp + 1 + |text| && buf[..next] == old(buf[..cp]) + Component(text)
    {
      buf[cp] := |text|;
      var k := 0;
      while k < |text|
        invariant 0 <= k <= |text|
        invariant buf[..cp + 1 + k] == old(buf[..cp]) + Component(text)[..1 + k]
      {
        buf[cp + 1 + k] := text[k];
        k := k + 1;
      }
      return cp + 1 + |text|;
    }

    method PutName(buf: array<byte>, start: nat, name: seq<byte>) returns (cp: nat)
      requires |name| < MAXCNAME && start + |name| + 2 <= buf.Length
      modifies buf
      ensures cp == start + |EncodeName(name)| && buf[..cp] == old(buf[..start]) + EncodeName(name)
    {
      hide EncodeName, Component;
      cp := start;
      var dname := name;
      while true
        invariant start <= cp && |dname| <= |name| && cp + |dname| + 2 <= buf.Length
        invariant buf[..cp] + EncodeName(dname) == old(buf[..start]) + EncodeName(name)
        decreases |dname|
      {
        EncodeStep(buf[..cp], dname);
        var len := FirstDot(dname);
        cp := PutComponent(buf, cp, dname[..len]);
        if len == 0 {
          break;
        }
        if len == |dname| {
          buf[cp] := 0;
          cp := cp + 1;
          break;
        }
        dname := dname[len + 1..];
      }
      assert buf[..cp] == old(buf[..start]) + EncodeName(name);
    }

    /** Prints a query for an address record of the host; returns its length. */
    method MakeQuery(op: word, name: seq<byte>, buf: array<byte>) returns (n: nat)
      requires |name| < MAXCNAME && |name| + 18 <= buf.Length
      modifies this, buf
      ensures msgId == Wrap(old(msgId) + 1)
      ensures n == |Query(msgId, op, name)| && buf[..n] == Query(msgId, op, name)
    {
      n := PutHeader(op, buf);
      n := PutName(buf, n, name);
      n := Put16(buf, n, 1);
      n := Put16(buf, n, 1);
    }
  }

  // ----- Round trip (RFC 1035 section 4.1.2)

  /** No empty label except, possibly, the root after a trailing dot. */
  predicate NoEmptyLabel(name: seq<byte>) {
    (name != [] ==> name[0] != DOT)
    && forall i :: 0 <= i < |name| - 1 ==> !DotPair(name, i)
  }

  predicate DotPair(name: seq<byte>, i: nat)
    requires i + 1 < |name|
  {
    name[i] == DOT == name[i + 1]
  }

  /** The name with exactly one trailing dot. */
  function WithDot(name: seq<byte>): seq<byte> {
    if name != [] && name[|name| - 1] == DOT then name else name + [DOT]
  }

  /** The layout the printer gives a name. */
  function Layout(name: seq<byte>): Name
    decreases |name|
  {
    var d := FirstDot(name);
    if d == 0 then Root
    else if d == |name| then Label(name[..d], Root)
    else Label(name[..d], Layout(name[d + 1..]))
  }

  predicate LabelsWithin(name: seq<byte>, limit: nat)
    decreases |name|
  {
    var d := FirstDot(name);
    d <= limit && (d < |name| ==> LabelsWithin(name[d + 1..], limit))
  }

  lemma {:induction false} ShortNameLabels(name: seq<byte>, limit: nat)
    requires |name| <= limit
    ensures LabelsWithin(name, limit)
    decreases |name|
  {
    var d := FirstDot(name);
    if d < |name| {
      ShortNameLabels(name[d + 1..], limit);
    }
  }

  lemma HoldsSplit(mem: Memory, p: nat, first: seq<byte>, second: seq<byte>)
    requires Holds(mem, p, first + second)
    ensures Holds(mem, p, first) && Holds(mem, p + |first|, second)
    ensures |first| == 1 ==> mem(p) == first[0]
    ensures |second| == 1 ==> mem(p + |first|) == second[0]
  {
    var both := first + second;
    forall i | 0 <= i < |first| ensures mem(p + i) == first[i] {
      assert mem(p + i) == both[i];
    }
    forall i | 0 <= i < |second| ensures mem(p + |first| + i) == second[i] {
      assert mem(p + (|first| + i)) == both[|first| + i];
    }
    if |first| == 1 {
      assert mem(p + 0) == both[0];
    }
    if |second| == 1 {
      assert mem(p + |first|) == both[|first|];
    }
  }

  lemma {:induction false} PrintedName(mem: Memory, p: nat, name: seq<byte>, limit: nat)
    requires |name| < MAXCNAME && Holds(mem, p, EncodeName(name)) && LabelsWithin(name, limit)
    ensures NameAt(mem, p, Layout(name), limit) && Direct(Layout(name))
    ensures EncodedLen(Layout(name)) == |EncodeName(name)|
    decreases |name|
  {
    hide FirstDot, Holds, Component;
    var d := FirstDot(name);
    PrintedComponent(mem, p, name[..d], EncodeRest(name, d));
    if 0 < d < |name| {
      PrintedName(mem, p + 1 + d, name[d + 1..], limit);
      hide LabelsWithin;
    }
  }

  lemma PrintedComponent(mem: Memory, p: nat, text: seq<byte>, rest: seq<byte>)
    requires |text| < 0x100 && Holds(mem, p, Component(text) + rest)
    ensures mem(p) == |text| && Holds(mem, p + 1, text) && Holds(mem, p + 1 + |text|, rest)
    ensures |rest| == 1 ==> mem(p + 1 + |text|) == rest[0]
  {
    hide Holds;
    HoldsSplit(mem, p, Component(text), rest);
    HoldsSplit(mem, p, [|text|], text);
  }

  lemma EmptyLabelInRest(name: seq<byte>, d: nat)
    requires 0 < d < |name| && name[d] == DOT
    requires forall i :: 0 <= i < d ==> name[i] != DOT
    ensures NoEmptyLabel(name) <==> NoEmptyLabel(name[d + 1..])
  {
    var rest := name[d + 1..];
    if NoEmptyLabel(name) {
      assert rest != [] ==> !DotPair(name, d);
      forall i | 0 <= i < |rest| - 1 ensures !DotPair(rest, i) {
        assert !DotPair(name, d + 1 + i);
      }
    } else {
      var i: nat :| i < |name| - 1 && DotPair(name, i);
      if i > d {
        assert DotPair(rest, i - d - 1);
      }
    }
  }

  lemma WithDotParts(name: seq<byte>, d: nat)
    requires d < |name| && name[d] == DOT
    ensures var rest := name[d + 1..];
            WithDot(name) == name[..d] + [DOT] + if rest == [] then [] else WithDot(rest)
  {
    var rest := name[d + 1..];
    if rest != [] {
      assert rest[|rest| - 1] == name[|name| - 1];
    }
  }

  lemma {:induction false} PrintedText(name: seq<byte>)
    ensures NoEmptyLabel(name) ==> Dotted(Layout(name)) == if name == [] then [] else WithDot(name)
    ensures !NoEmptyLabel(name) ==> |Dotted(Layout(name))| < |name|
    ensures |Dotted(Layout(name))| <= |WithDot(name)|
    decreases |name|
  {
    var d := FirstDot(name);
    if 0 < d < |name| {
      var rest := name[d + 1..];
      PrintedText(rest);
      EmptyLabelInRest(name, d);
      WithDotParts(name, d);
      hide NoEmptyLabel, WithDot, FirstDot;
    }
  }

  lemma QuerySplit(mem: Memory, id: word, op: word, name: seq<byte>)
    requires |name| < MAXCNAME && Holds(mem, 0, Query(id, op, name))
    ensures Holds(mem, 12, EncodeName(name))
    ensures Holds(mem, 0, QueryHeader(id, Flags(op)))
  {
    hide EncodeName, QueryHeader, Flags, Holds;
    ThreeParts(mem, QueryHeader(id, Flags(op)), EncodeName(name), [0, 1, 0, 1]);
  }

  lemma ThreeParts(mem: Memory, header: seq<byte>, name: seq<byte>, trailer: seq<byte>)
    requires Holds(mem, 0, header + name + trailer)
    ensures Holds(mem, 0, header) && Holds(mem, |header|, name)
  {
    hide Holds;
    HoldsSplit(mem, 0, header + name, trailer);
    HoldsSplit(mem, 0, header, name);
  }

  lemma HeaderRead(mem: Memory, id: word, flags: word)
    requires Holds(mem, 0, QueryHeader(id, flags))
    ensures Word16(mem, 0) == id && Word16(mem, 2) == flags && Word16(mem, 4) == 1
    ensures Word16(mem, 6) == Word16(mem, 8) == Word16(mem, 10) == 0
  {
    var h := QueryHeader(id, flags);
    assert mem(0 + 0) == h[0] && mem(0 + 1) == h[1] && mem(0 + 2) == h[2] && mem(0 + 3) == h[3];
    assert mem(0 + 4) == h[4] && mem(0 + 5) == h[5] && mem(0 + 6) == h[6] && mem(0 + 7) == h[7];
    assert mem(0 + 8) == h[8] && mem(0 + 9) == h[9] && mem(0 + 10) == h[10] && mem(0 + 11) == h[11];
  }

  /** Parsing a printed query: the question is read back, with one trailing dot, exactly when the
      name has no empty label (or is the root itself), and in every case the question ends where
      the message does. */
  lemma QueryRoundTrip(mem: Memory, id: word, op: word, name: seq<byte>)
    requires |name| < MAXCNAME && Holds(mem, 0, Query(id, op, name))
    ensures var q := Parse(mem, 12, MAXCNAME);
            q.Some? && (Display(q.value.text) == WithDot(name) <==> NoEmptyLabel(name) || name == [DOT])
    ensures QuestionsWalk(mem, 12, HeaderAt(mem).qdcount) == Some(|Query(id, op, name)|)
  {
    hide Parse, EncodeName, QueryHeader, Flags, Holds, Bit, Word16;
    QuerySplit(mem, id, op, name);
    QueryFields(mem, id, op, name);
    PrintedQuestion(mem, 12, name);
    assert QuestionsWalk(mem, 12, 1) == QuestionEnd(mem, 12);
  }

  lemma PrintedQuestion(mem: Memory, p: nat, name: seq<byte>)
    requires |name| < MAXCNAME && Holds(mem, p, EncodeName(name))
    ensures var q := Parse(mem, p, MAXCNAME);
            q.Some? && q.value.used == |EncodeName(name)|
            && (Display(q.value.text) == WithDot(name) <==> NoEmptyLabel(name) || name == [DOT])
  {
    hide Parse, Holds, EncodeName, Layout, NameAt, Direct, EncodedLen, Dotted, LabelsWithin;
    ShortNameLabels(name, WIRE_LABEL);
    PrintedName(mem, p, name, WIRE_LABEL);
    PrintedText(name);
    ParseMeetsFormat(mem, p, Layout(name), WIRE_LABEL, MAXCNAME);
    if !NoEmptyLabel(name) && name != [DOT] {
      assert |name| > 1;
    }
  }

  /** The header of a printed query: same id, recursion desired, one question and nothing else.
      The operation survives, and the message is marked a query, exactly for the 16 opcodes. */
  lemma QueryFields(mem: Memory, id: word, op: word, name: seq<byte>)
    requires |name| < MAXCNAME && Holds(mem, 0, Query(id, op, name))
    ensures var h := HeaderAt(mem);
            h.id == id && h.rd && !h.aa && !h.tc && !h.ra && h.rcode == 0
            && h.qdcount == 1 && h.ancount == h.nscount == h.arcount == 0
            && (h.opcode == op && !h.qr <==> op < 16)
  {
    hide EncodeName, QueryHeader, Flags, Bit, Word16;
    QuerySplit(mem, id, op, name);
    HeaderRead(mem, id, Flags(op));
    FlagBits(op);
    OpcodeFits(op);
  }

  lemma OpcodeFits(op: word)
    ensures op % 16 == op && op / 16 % 2 == 0 <==> op < 16
  {
  }

  lemma FlagBits(op: word)
    ensures var flags := Flags(op);
            flags / 0x800 % 16 == op % 16 && Bit(flags, 0x100) && !Bit(flags, 0x400)
            && !Bit(flags, 0x200) && !Bit(flags, 0x80) && flags % 16 == 0
            && (Bit(flags, 0x8000) <==> op / 16 % 2 == 1)
  {
    var s, flags := op % 0x20, Flags(op);
    assert flags / 0x800 == s && flags / 0x400 == 2 * s && flags / 0x200 == 4 * s;
    assert flags / 0x100 == 8 * s + 1 && flags / 0x80 == 16 * s + 2;
    assert flags / 0x8000 == s / 16;
  }

  /** A printed name whose labels respect RFC 1035 is a question of the wire format. */
  lemma QueryIsWellFormed(mem: Memory, id: word, op: word, name: seq<byte>)
    requires |name| < MAXCNAME && Holds(mem, 0, Query(id, op, name)) && LabelsWithin(name, RFC_LABEL)
    ensures QuestionsAt(mem, 12, [Layout(name)])
    ensures QuestionsEnd(12, [Layout(name)]) == |Query(id, op, name)|
  {
    QuerySplit(mem, id, op, name);
    PrintedName(mem, 12, name, RFC_LABEL);
  }
}

/**
 The response parser of Internet/DNS/dns.c.  Each method walks the message as the C code does
 and is proved equal to a function of the memory; the theorems then tie those functions to the
 wire format of module DnsFormat, in both directions.
 */
module DnsParser {
  import opened Bytes
  import opened DnsFormat

  const MAX_DOMAIN_NAME := 128
  const MAXCNAME := MAX_DOMAIN_NAME + MAX_DOMAIN_NAME / 2

  // ----- Names

  /** A name read from memory: its dotted text and the bytes it occupies where it starts. */
  datatype Parsed = Parsed(text: seq<byte>, used: nat)

  function Slice(mem: Memory, p: nat, n: nat): (s: seq<byte>)
    ensures |s| == n
  {
    seq(n, i requires 0 <= i < n => mem(p + i))
  }

  /** The length byte governing the segment at cp, after following at most one pointer. */
  function SegmentLen(mem: Memory, cp: nat): byte {
    mem(SegmentStart(mem, cp))
  }

  function SegmentStart(mem: Memory, cp: nat): nat {
    if mem(cp) >= POINTER_TAG then (mem(cp) - POINTER_TAG) * 0x100 + mem(cp + 1) else cp
  }

  /** What the segment loop reads at cp with room for len more characters; None is its failure. */
  function Parse(mem: Memory, cp: nat, len: nat): Option<Parsed>
    decreases len
  {
    var jumped := mem(cp) >= POINTER_TAG;
    var slen := SegmentLen(mem, cp);
    if slen == 0 then Some(Parsed([], if jumped then 2 else 1))
    else if len < slen + 1 then None
    else
      var body := SegmentStart(mem, cp) + 1;
      match Parse(mem, body + slen, len - slen - 1)
      case None => None
      case Some(rest) =>
        Some(Parsed(Slice(mem, body, slen) + [DOT] + rest.text,
                    if jumped then 2 else 1 + slen + rest.used))
  }

  /** The root name is written as a single dot. */
  function Display(text: seq<byte>): seq<byte> {
    if text == [] then [DOT] else text
  }

  /** The parse of a whole name, from what was written so far and the parse of the rest. */
  function Resume(written: seq<byte>, clen: nat, indirect: bool, rest: Option<Parsed>): Option<Parsed> {
    match rest
    case None => None
    case Some(p) => Some(Parsed(written + p.text, if indirect then clen else clen + p.used))
  }

  lemma ResumeStart(whole: Option<Parsed>)
    ensures Resume([], 0, false, whole) == whole
  {
    if whole.Some? {
      assert [] + whole.value.text == whole.value.text;
    }
  }

  lemma ResumeSegment(mem: Memory, cp: nat, len: nat, written: seq<byte>, clen: nat, indirect: bool)
    ensures var slen := SegmentLen(mem, cp);
            var body := SegmentStart(mem, cp) + 1;
            var jumped := mem(cp) >= POINTER_TAG;
            var whole := Resume(written, clen, indirect, Parse(mem, cp, len));
            if slen == 0 then
              whole == Some(Parsed(written, if indirect then clen else if jumped then clen + 2 else clen + 1))
            else if len < slen + 1 then whole == None
            else whole ==
                   Resume(written + Slice(mem, body, slen) + [DOT],
                          if indirect then clen else if jumped then clen + 2 else clen + 1 + slen,
                          indirect || jumped, Parse(mem, body + slen, len - slen - 1))
  {
    var slen := SegmentLen(mem, cp);
    var body := SegmentStart(mem, cp) + 1;
    if slen == 0 {
      assert written + [] == written;
    } else if slen < len {
      match Parse(mem, body + slen, len - slen - 1)
      case None =>
      case Some(rest) =>
        assert written + (Slice(mem, body, slen) + [DOT] + rest.text)
            == (written + Slice(mem, body, slen) + [DOT]) + rest.text;
    }
  }

  /** The head of the segment loop: reads a length byte, following at most one pointer. */
  method ReadLength(mem: Memory, start: nat, clen0: nat, indirect0: bool)
    returns (slen: byte, cp: nat, clen: nat, indirect: bool)
    ensures slen == SegmentLen(mem, start) && cp == SegmentStart(mem, start) + 1
    ensures indirect == (indirect0 || mem(start) >= POINTER_TAG)
    ensures clen == clen0 + if indirect0 then 0 else if mem(start) >= POINTER_TAG then 2 else 1
  {
    cp, clen, indirect := start, clen0, indirect0;
    slen := mem(cp);
    cp := cp + 1;
    if !indirect {
      clen := clen + 1;
    }
    if slen >= POINTER_TAG {
      if !indirect {
        clen := clen + 1;
      }
      indirect := true;
      cp := (slen - POINTER_TAG) * 0x100 + mem(cp);
      slen := mem(cp);
      cp := cp + 1;
    }
  }

  /** The tail of the segment loop: copies the n characters of a label to buf[o..], and a dot. */
  method CopyLabel(mem: Memory, start: nat, buf: array<byte>, o: nat, n: nat)
    requires o + n < buf.Length
    modifies buf
    ensures buf[..o + n + 1] == old(buf[..o]) + Slice(mem, start, n) + [DOT]
  {
    var k := 0;
    while k < n
      invariant 0 <= k <= n
      invariant buf[..o + k] == old(buf[..o]) + Slice(mem, start, n)[..k]
    {
      buf[o + k] := mem(start + k);
      k := k + 1;
    }
    buf[o + n] := DOT;
    assert buf[..o + n] == old(buf[..o]) + Slice(mem, start, n);
  }

  /** Converts the name at `compressed` to dotted text in buf.  The text takes at most maxLen
      characters and the closing NUL one more: in a buffer of exactly maxLen, which is what every
      caller passes, the NUL of a text of maxLen characters is written behind the end.  Overrun
      reports that write; the rest of the call goes on as if it had hit nothing. */
  method ParseName(mem: Memory, compressed: nat, buf: array<byte>, maxLen: nat) returns (r: int, ghost overrun: bool)
    requires 1 <= maxLen <= 0x7FFF && maxLen <= buf.Length
    modifies buf
    ensures match Parse(mem, compressed, maxLen)
            case None => r == -1 && !overrun
            case Some(p) =>
              var text := Display(p.text);
              r == p.used && |text| <= maxLen && buf[..|text|] == text
              && (overrun <==> |text| == buf.Length) && (!overrun ==> buf[|text|] == 0)
  {
    hide Parse;
    var len: int := maxLen;
    var cp: nat, clen: nat, o: nat := compressed, 0, 0;
    var indirect, nseg := false, 0;
    ghost var written: seq<byte> := [];
    ResumeStart(Parse(mem, compressed, maxLen));
    while true
      invariant 0 <= len <= maxLen && o == maxLen - len
      invariant buf[..o] == written
      invariant Parse(mem, compressed, maxLen) == Resume(written, clen, indirect, Parse(mem, cp, len))
      invariant nseg == 0 <==> o == 0
      decreases len
    {
      ghost var before: nat, room: nat := cp, len;
      ResumeSegment(mem, cp, len, written, clen, indirect);
      var slen;
      slen, cp, clen, indirect := ReadLength(mem, cp, clen, indirect);
      if slen == 0 {
        break;
      }
      len := len - slen - 1;
      if len < 0 {
        return -1, false;
      }
      if !indirect {
        clen := clen + slen;
      }
      CopyLabel(mem, cp, buf, o, slen);
      cp, o := cp + slen, o + slen + 1;
      nseg := nseg + 1;
      written := written + Slice(mem, SegmentStart(mem, before) + 1, slen) + [DOT];
    }
    assert Parse(mem, compressed, maxLen) == Some(Parsed(written, clen));
    if nseg == 0 {
      buf[o] := DOT;
      o := o + 1;
    }
    assert buf[..o] == Display(written);
    overrun := o == buf.Length;
    if o < buf.Length {
      buf[o] := 0;
    }
    assert buf[..o] == Display(written);
    return clen, overrun;
  }

  // ----- Names: the parser meets RFC 1035, section 4.1.4

  /** A name MAXCNAME characters can hold, with no pointer aimed at a pointer. */
  predicate Fits(n: Name, len: int) {
    Direct(n) && |Dotted(n)| <= len
  }

  lemma SliceHolds(mem: Memory, p: nat, bytes: seq<byte>)
    requires Holds(mem, p, bytes)
    ensures Slice(mem, p, |bytes|) == bytes
  {
  }

  lemma LabelStep(mem: Memory, p: nat, text: seq<byte>, len: nat)
    requires 1 <= |text| <= WIRE_LABEL && mem(p) == |text| && Holds(mem, p + 1, text)
    ensures Parse(mem, p, len) ==
            if len < |text| + 1 then None
            else match Parse(mem, p + 1 + |text|, len - |text| - 1)
                 case None => None
                 case Some(rest) => Some(Parsed(text + [DOT] + rest.text, 1 + |text| + rest.used))
  {
    SliceHolds(mem, p + 1, text);
  }

  /** Following a pointer reads the name it aims at; a pointer found there is never followed. */
  lemma PointerStep(mem: Memory, p: nat, target: nat, len: nat)
    requires target < 0x4000 && mem(p) == POINTER_TAG + target / 0x100 && mem(p + 1) == target % 0x100
    requires len <= MAXCNAME
    ensures Parse(mem, p, len) ==
            if mem(target) >= POINTER_TAG then None
            else match Parse(mem, target, len)
                 case None => None
                 case Some(q) => Some(Parsed(q.text, 2))
  {
    assert SegmentStart(mem, p) == target;
  }

  lemma RootStep(mem: Memory, p: nat, limit: nat, len: nat)
    requires NameAt(mem, p, Root, limit)
    ensures Parse(mem, p, len) == Some(Parsed([], 1))
  {
  }

  lemma LabelThere(mem: Memory, p: nat, text: seq<byte>, tail: Name, limit: nat)
    requires NameAt(mem, p, Label(text, tail), limit)
    ensures 1 <= |text| <= limit && mem(p) == |text| && Holds(mem, p + 1, text)
    ensures NameAt(mem, p + 1 + |text|, tail, limit)
  {
  }

  lemma PointerThere(mem: Memory, p: nat, target: nat, dest: Name, limit: nat)
    requires NameAt(mem, p, Pointer(target, dest), limit) && limit <= WIRE_LABEL
    ensures target < 0x4000 && mem(p) == POINTER_TAG + target / 0x100 && mem(p + 1) == target % 0x100
    ensures NameAt(mem, target, dest, limit) && (dest.Pointer? <==> mem(target) >= POINTER_TAG)
  {
  }

  /** Every name in memory is either read exactly or rejected, and it is rejected just when a
      pointer aims at a pointer or the dotted form is too long.  (A pointer's own first byte is
      taken for a label of at least 192 bytes, which no buffer of MAXCNAME can take.) */
  lemma {:induction false} ParseMeetsFormat(mem: Memory, p: nat, n: Name, limit: nat, len: nat)
    requires NameAt(mem, p, n, limit) && limit <= WIRE_LABEL && len <= MAXCNAME
    ensures Parse(mem, p, len) ==
            if Fits(n, len) then Some(Parsed(Dotted(n), EncodedLen(n))) else None
    decreases n
  {
    hide Parse, NameAt, Holds;
    match n
    case Root =>
      RootStep(mem, p, limit, len);
    case Label(text, tail) =>
      LabelThere(mem, p, text, tail, limit);
      LabelStep(mem, p, text, len);
      if |text| + 1 <= len {
        ParseMeetsFormat(mem, p + 1 + |text|, tail, limit, len - |text| - 1);
      }
    case Pointer(target, dest) =>
      PointerThere(mem, p, target, dest, limit);
      PointerStep(mem, p, target, len);
      if !dest.Pointer? {
        ParseMeetsFormat(mem, target, dest, limit, len);
      }
  }

  /** Conversely, whatever the parser accepts is a name of the wire format: it invents nothing,
      even on memories whose pointers form cycles. */
  lemma {:induction false} AcceptedIsName(mem: Memory, p: nat, len: nat) returns (n: Name)
    requires Parse(mem, p, len).Some? && len <= MAXCNAME
    ensures NameAt(mem, p, n, WIRE_LABEL) && Fits(n, len)
    ensures Parse(mem, p, len) == Some(Parsed(Dotted(n), EncodedLen(n)))
    decreases len
  {
    var start, slen := SegmentStart(mem, p), SegmentLen(mem, p);
    if slen == 0 {
      n := Root;
    } else {
      var tail := AcceptedIsName(mem, start + 1 + slen, len - slen - 1);
      n := Label(Slice(mem, start + 1, slen), tail);
    }
    if mem(p) >= POINTER_TAG {
      n := Pointer(start, n);
    }
  }

  /** A pointer to a pointer, legal in RFC 1035, makes the parser give up. */
  lemma PointerToPointerRejected(mem: Memory)
    requires mem(0) == 0xC0 && mem(1) == 2 && mem(2) == 0xC0 && mem(3) == 4 && mem(4) == 0
    ensures NameAt(mem, 0, Pointer(2, Pointer(4, Root)), RFC_LABEL)
    ensures Parse(mem, 0, MAXCNAME).None?
  {
    assert NameAt(mem, 2, Pointer(4, Root), RFC_LABEL);
    ParseMeetsFormat(mem, 0, Pointer(2, Pointer(4, Root)), RFC_LABEL, MAXCNAME);
  }

  // ----- Questions and records

  function SkipName(mem: Memory, cp: nat): Option<nat> {
    match Parse(mem, cp, MAXCNAME)
    case None => None
    case Some(name) => Some(cp + name.used)
  }

  /** The name at p is accepted and its NUL written behind the end of a buffer of MAXCNAME bytes. */
  predicate Overruns(mem: Memory, p: nat) {
    var name := Parse(mem, p, MAXCNAME);
    name.Some? && |Display(name.value.text)| == MAXCNAME
  }

  /** Steps over a name, converting it into a local buffer nobody reads. */
  method StepOverName(mem: Memory, cp: nat) returns (next: Option<nat>, ghost overrun: bool)
    ensures next == SkipName(mem, cp) && (overrun <==> Overruns(mem, cp))
  {
    hide Parse;
    var name := new byte[MAXCNAME];
    var len;
    len, overrun := ParseName(mem, cp, name, MAXCNAME);
    if len == -1 {
      return None, overrun;
    }
    return Some(cp + len), overrun;
  }

  function QuestionEnd(mem: Memory, cp: nat): Option<nat> {
    match SkipName(mem, cp)
    case None => None
    case Some(q) => Some(q + 4)
  }

  method ParseQuestion(mem: Memory, cp: nat) returns (next: Option<nat>, ghost overrun: bool)
    ensures next == QuestionEnd(mem, cp) && (overrun <==> Overruns(mem, cp))
  {
    next, overrun := StepOverName(mem, cp);
    if next.Some? {
      next := Some(next.value + 2 + 2);
    }
  }

  /** Cursor and output address after some answers; a None cursor is the failure return. */
  datatype Walk = Walk(next: Option<nat>, ip: seq<byte>)

  function SkipRData(mem: Memory, cp: nat, rtype: int): Option<nat> {
    if rtype == TYPE_A then Some(cp + 4)
    else if SingleNameType(rtype) then SkipName(mem, cp)
    else if rtype == TYPE_HINFO then
      var os: nat := cp + 1 + mem(cp);
      Some(os + 1 + mem(os))
    else if rtype == TYPE_MX then SkipName(mem, cp + 2)
    else if rtype == TYPE_SOA then
      match SkipName(mem, cp)
      case None => None
      case Some(rname) =>
        (match SkipName(mem, rname)
         case None => None
         case Some(numbers) => Some(numbers + 20))
    else Some(cp)
  }

  function AnswerWalk(mem: Memory, cp: nat, ip: seq<byte>): Walk {
    match SkipName(mem, cp)
    case None => Walk(None, ip)
    case Some(q) =>
      var rtype := Word16(mem, q);
      Walk(SkipRData(mem, q + 10, rtype), if rtype == TYPE_A then Slice(mem, q + 10, 4) else ip)
  }

  /** A name in the data of a record overruns. */
  predicate RDataOverruns(mem: Memory, cp: nat, rtype: int) {
    if SingleNameType(rtype) then Overruns(mem, cp)
    else if rtype == TYPE_MX then Overruns(mem, cp + 2)
    else if rtype == TYPE_SOA then
      Overruns(mem, cp) || (SkipName(mem, cp).Some? && Overruns(mem, SkipName(mem, cp).value))
    else false
  }

  predicate AnswerOverruns(mem: Memory, cp: nat) {
    Overruns(mem, cp)
    || (SkipName(mem, cp).Some?
        && var q := SkipName(mem, cp).value;
           RDataOverruns(mem, q + 10, Word16(mem, q)))
  }

  method ParseAnswer(mem: Memory, start: nat, ip: array<byte>) returns (next: Option<nat>, ghost overrun: bool)
    requires ip.Length == 4
    modifies ip
    ensures Walk(next, ip[..]) == AnswerWalk(mem, start, old(ip[..]))
    ensures overrun <==> AnswerOverruns(mem, start)
  {
    hide SkipName, Overruns;
    ghost var over;
    next, overrun := StepOverName(mem, start);
    if next.None? {
      return;
    }
    var cp: nat := next.value;
    var rtype := Word16(mem, cp);
    cp := cp + 2 + 2 + 4 + 2;
    if rtype == TYPE_A {
      ip[0], ip[1], ip[2], ip[3] := mem(cp), mem(cp + 1), mem(cp + 2), mem(cp + 3);
      assert ip[..] == Slice(mem, cp, 4);
      next := Some(cp + 4);
    } else if SingleNameType(rtype) {
      next, over := StepOverName(mem, cp);
      overrun := overrun || over;
    } else if rtype == TYPE_HINFO {
      var len := mem(cp);
      cp := cp + 1 + len;
      len := mem(cp);
      next := Some(cp + 1 + len);
    } else if rtype == TYPE_MX {
      cp := cp + 2;
      next, over := StepOverName(mem, cp);
      overrun := overrun || over;
    } else if rtype == TYPE_SOA {
      next, over := StepOverName(mem, cp);
      overrun := overrun || over;
      if next.Some? {
        next, over := StepOverName(mem, next.value);
        overrun := overrun || over;
        if next.Some? {
          next := Some(next.value + 4 + 4 + 4 + 4 + 4);
        }
      }
    } else {
      next := Some(cp);
    }
  }

  predicate RDataFits(d: RData) {
    match d
    case SingleName(name) => Fits(name, MAXCNAME)
    case Exchange(_, exchange) => Fits(exchange, MAXCNAME)
    case Authority(mname, rname, _) => Fits(mname, MAXCNAME) && Fits(rname, MAXCNAME)
    case _ => true
  }

  predicate RecordFits(r: Record) {
    Fits(r.owner, MAXCNAME) && RDataFits(r.data)
  }

  lemma SkipNameMeetsFormat(mem: Memory, p: nat, n: Name)
    requires NameAt(mem, p, n, RFC_LABEL)
    ensures SkipName(mem, p) == if Fits(n, MAXCNAME) then Some(p + EncodedLen(n)) else None
  {
    ParseMeetsFormat(mem, p, n, RFC_LABEL, MAXCNAME);
  }

  lemma SkipAuthorityMeetsFormat(mem: Memory, p: nat, mname: Name, rname: Name, numbers: seq<byte>)
    requires RDataAt(mem, p, Authority(mname, rname, numbers)) && |numbers| == 20
    ensures SkipRData(mem, p, TYPE_SOA) ==
            if Fits(mname, MAXCNAME) && Fits(rname, MAXCNAME)
            then Some(p + EncodedLen(mname) + EncodedLen(rname) + 20) else None
  {
    hide SkipName, NameAt, Direct, Dotted, EncodedLen;
    SkipNameMeetsFormat(mem, p, mname);
    SkipNameMeetsFormat(mem, p + EncodedLen(mname), rname);
  }

  lemma SkipRDataMeetsFormat(mem: Memory, p: nat, rtype: word, d: RData)
    requires TypeMatches(rtype, d) && RDataAt(mem, p, d)
    ensures SkipRData(mem, p, rtype) == if RDataFits(d) then Some(p + RDataLen(d)) else None
  {
    hide SkipName, NameAt, Direct, Dotted, EncodedLen;
    match d
    case Address(ip) =>
    case SingleName(name) => SkipNameMeetsFormat(mem, p, name);
    case HostInfo(cpu, os) =>
    case Exchange(_, exchange) => SkipNameMeetsFormat(mem, p + 2, exchange);
    case Authority(mname, rname, numbers) => SkipAuthorityMeetsFormat(mem, p, mname, rname, numbers);
  }

  lemma AddressMeetsFormat(mem: Memory, p: nat, r: Record)
    requires RecordAt(mem, p, r)
    ensures r.rtype == TYPE_A <==> r.data.Address?
    ensures r.data.Address? ==> Slice(mem, p + EncodedLen(r.owner) + 10, 4) == r.data.ip
  {
    if r.data.Address? {
      SliceHolds(mem, p + EncodedLen(r.owner) + 10, r.data.ip);
    }
  }

  /** The cursor lands where RDLENGTH says the record ends, although RDLENGTH is never read; it
      fails exactly when a name of the record does not fit. */
  lemma AnswerWalkMeetsFormat(mem: Memory, p: nat, r: Record, ip: seq<byte>)
    requires RecordAt(mem, p, r)
    ensures AnswerWalk(mem, p, ip).next ==
            if RecordFits(r) then Some(RecordEnd(mem, p, r)) else None
    ensures Fits(r.owner, MAXCNAME) ==>
              AnswerWalk(mem, p, ip).ip == LastAddress([r], ip)
  {
    hide SkipName, SkipRData, NameAt, Direct, Dotted, EncodedLen;
    SkipNameMeetsFormat(mem, p, r.owner);
    AddressMeetsFormat(mem, p, r);
    hide RDataAt;
    SkipRDataMeetsFormat(mem, p + EncodedLen(r.owner) + 10, r.rtype, r.data);
    assert [r][..0] == [];
  }

  // ----- Whole replies

  datatype Header = Header(id: word, qr: bool, opcode: nat, aa: bool, tc: bool, rd: bool, ra: bool,
                           rcode: nat, qdcount: word, ancount: word, nscount: word, arcount: word)

  predicate Bit(w: word, weight: nat)
    requires weight > 0
  {
    w / weight % 2 == 1
  }

  function HeaderAt(mem: Memory): Header {
    var flags := Word16(mem, 2);
    Header(Word16(mem, 0), Bit(flags, 0x8000), flags / 0x800 % 16, Bit(flags, 0x400), Bit(flags, 0x200),
           Bit(flags, 0x100), Bit(flags, 0x80), flags % 16,
           Word16(mem, 4), Word16(mem, 6), Word16(mem, 8), Word16(mem, 10))
  }

  function QuestionsWalk(mem: Memory, cp: nat, n: nat): Option<nat>
    decreases n
  {
    if n == 0 then Some(cp)
    else match QuestionEnd(mem, cp)
      case None => None
      case Some(next) => QuestionsWalk(mem, next, n - 1)
  }

  function AnswersWalk(mem: Memory, cp: nat, n: nat, ip: seq<byte>): Walk
    decreases n
  {
    if n == 0 then Walk(Some(cp), ip)
    else
      var w := AnswerWalk(mem, cp, ip);
      if w.next.None? then w else AnswersWalk(mem, w.next.value, n - 1, w.ip)
  }

  /** Return value and output address for a reply. */
  function Reply(mem: Memory, ip: seq<byte>): (int, seq<byte>) {
    var h := HeaderAt(mem);
    match QuestionsWalk(mem, 12, h.qdcount)
    case None => (-1, ip)
    case Some(cp) =>
      var w := AnswersWalk(mem, cp, h.ancount, ip);
      (if w.next.None? then -1 else if h.rcode == 0 then 1 else 0, w.ip)
  }

  /** Some name read in the first n questions overruns; then in the first n answers; then in either. */
  predicate QuestionsOverrun(mem: Memory, cp: nat, n: nat)
    decreases n
  {
    n > 0 && (Overruns(mem, cp)
              || (QuestionEnd(mem, cp).Some? && QuestionsOverrun(mem, QuestionEnd(mem, cp).value, n - 1)))
  }

  predicate AnswersOverrun(mem: Memory, cp: nat, n: nat)
    decreases n
  {
    n > 0 && (AnswerOverruns(mem, cp)
              || (var w := AnswerWalk(mem, cp, []);
                  w.next.Some? && AnswersOverrun(mem, w.next.value, n - 1)))
  }

  predicate ReplyOverruns(mem: Memory) {
    var h := HeaderAt(mem);
    var cp := QuestionsWalk(mem, 12, h.qdcount);
    QuestionsOverrun(mem, 12, h.qdcount) || (cp.Some? && AnswersOverrun(mem, cp.value, h.ancount))
  }

  method ParseQuestions(mem: Memory, start: nat, n: nat) returns (next: Option<nat>, ghost overrun: bool)
    ensures next == QuestionsWalk(mem, start, n) && (overrun <==> QuestionsOverrun(mem, start, n))
  {
    hide Overruns, QuestionEnd;
    overrun := false;
    var cp := start;
    var i := 0;
    while i < n
      invariant 0 <= i <= n
      invariant QuestionsWalk(mem, start, n) == QuestionsWalk(mem, cp, n - i)
      invariant QuestionsOverrun(mem, start, n) <==> overrun || QuestionsOverrun(mem, cp, n - i)
    {
      ghost var over;
      next, over := ParseQuestion(mem, cp);
      overrun := overrun || over;
      if next.None? {
        return;
      }
      cp, i := next.value, i + 1;
    }
    next := Some(cp);
  }

  /** Where the walk leads does not depend on the address found so far. */
  lemma SameCursor(mem: Memory, cp: nat, ip: seq<byte>, ip': seq<byte>)
    ensures AnswerWalk(mem, cp, ip).next == AnswerWalk(mem, cp, ip').next
  {
  }

  method ParseAnswers(mem: Memory, start: nat, n: nat, ip: array<byte>) returns (next: Option<nat>, ghost overrun: bool)
    requires ip.Length == 4
    modifies ip
    ensures Walk(next, ip[..]) == AnswersWalk(mem, start, n, old(ip[..]))
    ensures overrun <==> AnswersOverrun(mem, start, n)
  {
    hide AnswerWalk, AnswerOverruns;
    overrun := false;
    var cp := start;
    var i := 0;
    while i < n
      invariant 0 <= i <= n
      invariant AnswersWalk(mem, start, n, old(ip[..])) == AnswersWalk(mem, cp, n - i, ip[..])
      invariant AnswersOverrun(mem, start, n) <==> overrun || AnswersOverrun(mem, cp, n - i)
    {
      SameCursor(mem, cp, ip[..], []);
      ghost var over;
      next, over := ParseAnswer(mem, cp, ip);
      overrun := overrun || over;
      if next.None? {
        return;
      }
      cp, i := next.value, i + 1;
    }
    next := Some(cp);
  }

  method ParseReply(mem: Memory, ip: array<byte>) returns (r: int, h: Header, ghost overrun: bool)
    requires ip.Length == 4
    modifies ip
    ensures (r, ip[..]) == Reply(mem, old(ip[..]))
    ensures h == HeaderAt(mem) && (overrun <==> ReplyOverruns(mem))
  {
    hide QuestionsOverrun, AnswersOverrun, AnswersWalk, QuestionsWalk;
    h := HeaderAt(mem);
    var cp;
    cp, overrun := ParseQuestions(mem, 12, h.qdcount);
    if cp.None? {
      return -1, h, overrun;
    }
    ghost var over;
    cp, over := ParseAnswers(mem, cp.value, h.ancount, ip);
    overrun := overrun || over;
    if cp.None? {
      return -1, h, overrun;
    }
    return if h.rcode == 0 then 1 else 0, h, overrun;
  }

  predicate AllFit(names: seq<Name>) {
    forall i :: 0 <= i < |names| ==> Fits(names[i], MAXCNAME)
  }

  predicate AllRecordsFit(records: seq<Record>) {
    forall i :: 0 <= i < |records| ==> RecordFits(records[i])
  }

  lemma {:induction false} QuestionsMeetFormat(mem: Memory, p: nat, names: seq<Name>)
    requires QuestionsAt(mem, p, names)
    ensures QuestionsWalk(mem, p, |names|) == if AllFit(names) then Some(QuestionsEnd(p, names)) else None
    decreases names
  {
    hide SkipName, NameAt, Direct, Dotted, EncodedLen;
    if names != [] {
      SkipNameMeetsFormat(mem, p, names[0]);
      QuestionsMeetFormat(mem, p + EncodedLen(names[0]) + 4, names[1..]);
      assert AllFit(names) <==> Fits(names[0], MAXCNAME) && AllFit(names[1..]) by {
        assert names == [names[0]] + names[1..];
      }
    }
  }

  lemma {:induction false} LastAddressSplit(first: Record, rest: seq<Record>, before: seq<byte>)
    ensures LastAddress([first] + rest, before) == LastAddress(rest, LastAddress([first], before))
    decreases rest
  {
    var all := [first] + rest;
    if rest == [] {
      assert all == [first];
    } else {
      var init := rest[..|rest| - 1];
      assert all[..|all| - 1] == [first] + init;
      LastAddressSplit(first, init, before);
    }
  }

  lemma {:induction false} AnswersMeetFormat(mem: Memory, p: nat, records: seq<Record>, ip: seq<byte>)
    requires RecordsAt(mem, p, records)
    ensures var w := AnswersWalk(mem, p, |records|, ip);
            w.next == (if AllRecordsFit(records) then Some(RecordsEnd(mem, p, records)) else None)
            && (AllRecordsFit(records) ==> w.ip == LastAddress(records, ip))
    decreases records
  {
    if records != [] {
      var r, rest := records[0], records[1..];
      assert records == [r] + rest;
      AnswerWalkMeetsFormat(mem, p, r, ip);
      LastAddressSplit(r, rest, ip);
      assert AllRecordsFit(records) <==> RecordFits(r) && AllRecordsFit(rest);
      AnswersMeetFormat(mem, RecordEnd(mem, p, r), rest, LastAddress([r], ip));
    }
  }

  /** A well-formed reply is answered with the address of its last A record and the verdict of
      its RCODE, unless one of its names does not fit: exactly then the answer is -1. */
  lemma ReplyMeetsFormat(mem: Memory, questions: seq<Name>, records: seq<Record>, ip: seq<byte>)
    requires |questions| == HeaderAt(mem).qdcount && |records| == HeaderAt(mem).ancount
    requires QuestionsAt(mem, 12, questions)
    requires RecordsAt(mem, QuestionsEnd(12, questions), records)
    ensures Reply(mem, ip).0 == -1 <==> !(AllFit(questions) && AllRecordsFit(records))
    ensures Reply(mem, ip).0 != -1 ==>
              Reply(mem, ip) == (if HeaderAt(mem).rcode == 0 then 1 else 0, LastAddress(records, ip))
  {
    QuestionsMeetFormat(mem, 12, questions);
    AnswersMeetFormat(mem, QuestionsEnd(12, questions), records, ip);
  }

  // ----- The byte behind the buffer

  /** As long as a buffer of MAXCNAME bytes, so that the NUL does not fit. */
  predicate Bursts(n: Name) {
    Direct(n) && |Dotted(n)| == MAXCNAME
  }

  /** A name that RFC 1035 allows overruns exactly if its dotted form has MAXCNAME characters. */
  lemma OverrunsExactly(mem: Memory, p: nat, n: Name)
    requires NameAt(mem, p, n, RFC_LABEL)
    ensures Overruns(mem, p) <==> Bursts(n)
  {
    ParseMeetsFormat(mem, p, n, RFC_LABEL, MAXCNAME);
  }

  /** Names read in this order, up to the first that does not fit, one of which bursts. */
  predicate Reached(names: seq<Name>, i: nat) {
    i < |names| && Bursts(names[i]) && AllFit(names[..i])
  }

  predicate SomeReached(names: seq<Name>) {
    exists i: nat :: i < |names| && Reached(names, i)
  }

  lemma ReachedFirst(n: Name, rest: seq<Name>)
    ensures SomeReached([n] + rest) <==> Bursts(n) || (Fits(n, MAXCNAME) && SomeReached(rest))
  {
    hide Fits, Bursts;
    var all := [n] + rest;
    if Bursts(n) {
      assert Reached(all, 0);
    }
    if Fits(n, MAXCNAME) && SomeReached(rest) {
      var i :| 0 <= i < |rest| && Reached(rest, i);
      assert all[..i + 1] == [n] + rest[..i];
      assert Reached(all, i + 1);
    }
    if SomeReached(all) && !Bursts(n) {
      var i :| 0 <= i < |all| && Reached(all, i);
      AllFitFirst(all[..i]);
      assert all[..i][1..] == rest[..i - 1];
      assert Reached(rest, i - 1);
    }
  }

  lemma {:induction false} ReachedBehind(a: seq<Name>, b: seq<Name>)
    ensures SomeReached(a + b) <==> SomeReached(a) || (AllFit(a) && SomeReached(b))
    decreases a
  {
    hide Reached, Fits, Bursts;
    if a == [] {
      assert a + b == b && !SomeReached(a);
    } else {
      assert a == [a[0]] + a[1..] && a + b == [a[0]] + (a[1..] + b);
      ReachedBehind(a[1..], b);
      ReachedFirst(a[0], a[1..]);
      ReachedFirst(a[0], a[1..] + b);
      AllFitFirst(a);
      BurstsFits(a[0]);
    }
  }

  lemma AllFitFirst(names: seq<Name>)
    requires names != []
    ensures AllFit(names) <==> Fits(names[0], MAXCNAME) && AllFit(names[1..])
  {
    assert names == [names[0]] + names[1..];
  }

  lemma BurstsFits(n: Name)
    ensures Bursts(n) ==> Fits(n, MAXCNAME)
  {
  }

  lemma NoneReached()
    ensures !SomeReached([])
  {
  }

  function DataNames(d: RData): seq<Name> {
    match d
    case SingleName(name) => [name]
    case Exchange(_, exchange) => [exchange]
    case Authority(mname, rname, _) => [mname] + [rname]
    case _ => []
  }

  function RecordNames(r: Record): seq<Name> {
    [r.owner] + DataNames(r.data)
  }

  /** The names of some records, in the order they are read. */
  function AllNames(records: seq<Record>): seq<Name>
    decreases records
  {
    if records == [] then [] else RecordNames(records[0]) + AllNames(records[1..])
  }

  lemma RecordNamesFit(r: Record)
    ensures AllFit(RecordNames(r)) <==> RecordFits(r)
  {
    hide Fits;
    var names := RecordNames(r);
    assert names[0] == r.owner;
    match r.data
    case SingleName(name) => assert names[1] == name;
    case Exchange(_, exchange) => assert names[1] == exchange;
    case Authority(mname, rname, _) => assert names[1] == mname && names[2] == rname;
    case _ =>
  }

  lemma DataOverruns(mem: Memory, p: nat, rtype: word, d: RData)
    requires TypeMatches(rtype, d) && RDataAt(mem, p, d)
    ensures RDataOverruns(mem, p, rtype) <==> SomeReached(DataNames(d))
  {
    hide SkipName, NameAt, Fits, Bursts, SomeReached, EncodedLen, Overruns;
    NoneReached();
    match d
    case Address(ip) =>
    case HostInfo(cpu, os) =>
    case SingleName(name) =>
      OverrunsExactly(mem, p, name);
      ReachedFirst(name, []);
      assert [name] + [] == [name];
    case Exchange(_, exchange) =>
      OverrunsExactly(mem, p + 2, exchange);
      ReachedFirst(exchange, []);
      assert [exchange] + [] == [exchange];
    case Authority(mname, rname, numbers) =>
      OverrunsExactly(mem, p, mname);
      SkipNameMeetsFormat(mem, p, mname);
      OverrunsExactly(mem, p + EncodedLen(mname), rname);
      ReachedFirst(mname, [rname]);
      ReachedFirst(rname, []);
      assert [rname] + [] == [rname];
      BurstsFits(mname);
  }

  lemma RecordOverruns(mem: Memory, p: nat, r: Record)
    requires RecordAt(mem, p, r)
    ensures AnswerOverruns(mem, p) <==> SomeReached(RecordNames(r))
  {
    hide SkipName, NameAt, Fits, Bursts, SomeReached, EncodedLen, Overruns, RDataAt, RDataOverruns, DataNames;
    OverrunsExactly(mem, p, r.owner);
    SkipNameMeetsFormat(mem, p, r.owner);
    DataOverruns(mem, p + EncodedLen(r.owner) + 10, r.rtype, r.data);
    ReachedFirst(r.owner, DataNames(r.data));
    BurstsFits(r.owner);
  }

  lemma {:induction false} QuestionsOverrunExactly(mem: Memory, p: nat, names: seq<Name>)
    requires QuestionsAt(mem, p, names)
    ensures QuestionsOverrun(mem, p, |names|) <==> SomeReached(names)
    decreases names
  {
    hide SkipName, NameAt, Fits, Bursts, EncodedLen, Overruns, SomeReached;
    if names == [] {
      NoneReached();
    } else {
      OverrunsExactly(mem, p, names[0]);
      SkipNameMeetsFormat(mem, p, names[0]);
      QuestionsOverrunExactly(mem, p + EncodedLen(names[0]) + 4, names[1..]);
      ReachedFirst(names[0], names[1..]);
      assert names == [names[0]] + names[1..];
      BurstsFits(names[0]);
    }
  }

  lemma {:induction false} AnswersOverrunExactly(mem: Memory, p: nat, records: seq<Record>)
    requires RecordsAt(mem, p, records)
    ensures AnswersOverrun(mem, p, |records|) <==> SomeReached(AllNames(records))
    decreases records
  {
    hide AnswerWalk, RecordAt, AnswerOverruns, SomeReached, RecordNames, RecordFits, LastAddress;
    if records == [] {
      NoneReached();
    } else {
      var r, rest := records[0], records[1..];
      RecordOverruns(mem, p, r);
      AnswerWalkMeetsFormat(mem, p, r, []);
      AnswersOverrunExactly(mem, RecordEnd(mem, p, r), rest);
      RecordNamesFit(r);
      ReachedBehind(RecordNames(r), AllNames(rest));
    }
  }

  /** Reading a well-formed reply writes behind the local buffer exactly if one of its names, with all
      those before it fitting, has a dotted form of MAXCNAME characters. */
  lemma ReplyOverrunsExactly(mem: Memory, questions: seq<Name>, records: seq<Record>)
    requires |questions| == HeaderAt(mem).qdcount && |records| == HeaderAt(mem).ancount
    requires QuestionsAt(mem, 12, questions)
    requires RecordsAt(mem, QuestionsEnd(12, questions), records)
    ensures ReplyOverruns(mem) <==> SomeReached(questions + AllNames(records))
  {
    hide QuestionsOverrun, AnswersOverrun, QuestionsWalk, SomeReached, AllFit, AllNames;
    QuestionsOverrunExactly(mem, 12, questions);
    QuestionsMeetFormat(mem, 12, questions);
    AnswersOverrunExactly(mem, QuestionsEnd(12, questions), records);
    ReachedBehind(questions, AllNames(records));
  }

  /** Three labels of the greatest length RFC 1035 allows. */
  function LongName(): Name {
    var text: seq<byte> := seq(RFC_LABEL, _ => 97);
    Label(text, Label(text, Label(text, Root)))
  }

  /** A reply with one question that asks for them, and no answer. */
  function LongReply(): Memory {
    p => if p == 5 then 1
         else if p == 12 || p == 12 + 64 || p == 12 + 128 then RFC_LABEL
         else if p < 12 || p == 12 + 192 then 0
         else 97
  }

  lemma LongNameThere()
    ensures NameAt(LongReply(), 12, LongName(), RFC_LABEL) && Bursts(LongName()) && Fits(LongName(), MAXCNAME)
    ensures HeaderAt(LongReply()).qdcount == 1 && HeaderAt(LongReply()).ancount == 0
    ensures HeaderAt(LongReply()).rcode == 0
  {
  }

  /** It is well-formed and accepted, and its reading writes behind the buffer. */
  lemma LongReplyOverruns(ip: seq<byte>)
    ensures HeaderAt(LongReply()).qdcount == 1 && HeaderAt(LongReply()).ancount == 0
    ensures QuestionsAt(LongReply(), 12, [LongName()])
    ensures ReplyOverruns(LongReply()) && Reply(LongReply(), ip).0 == 1
  {
    var mem, n := LongReply(), LongName();
    LongNameThere();
    hide LongReply, NameAt, Bursts, Fits, LongName;
    var none: seq<Name>, nothing: seq<Record> := [], [];
    assert [n][1..] == none && [n][..0] == none;
    QuestionsOverrunExactly(mem, 12, [n]);
    assert Reached([n], 0);
    ReplyMeetsFormat(mem, [n], nothing, ip);
  }
}

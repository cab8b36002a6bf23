/**
 The DNS wire format of RFC 1035, stated without reference to the driver's code:
 what it means for a memory to hold a (possibly compressed) name, a question, a
 resource record or a whole reply.
 */
module DnsFormat {
  import opened Bytes

  /** Byte memory as the parser sees it, addressed relative to the start of the message.
      It is total: the parser never checks an address against the message length. */
  type Memory = nat -> byte

  const DOT: byte := 46
  const POINTER_TAG := 0xC0
  /** Longest label of RFC 1035 section 2.3.4. */
  const RFC_LABEL := 63
  /** Longest label a length byte below the pointer tag can announce. */
  const WIRE_LABEL := 0xBF

  function Word16(mem: Memory, p: nat): word {
    Word(mem(p), mem(p + 1))
  }

  predicate Holds(mem: Memory, p: nat, bytes: seq<byte>) {
    forall i :: 0 <= i < |bytes| ==> mem(p + i) == bytes[i]
  }

  // ----- Names (sections 3.1 and 4.1.4)

  /** How one name is laid out: labels, then a root byte or a pointer to another name. */
  datatype Name = Root | Label(text: seq<byte>, tail: Name) | Pointer(target: nat, dest: Name)

  /** The memory holds name n at p, no label being longer than limit. */
  predicate NameAt(mem: Memory, p: nat, n: Name, limit: nat)
    decreases n
  {
    match n
    case Root => mem(p) == 0
    case Label(text, tail) =>
      1 <= |text| <= limit && mem(p) == |text| && Holds(mem, p + 1, text)
      && NameAt(mem, p + 1 + |text|, tail, limit)
    case Pointer(target, dest) =>
      target < 0x4000 && mem(p) == POINTER_TAG + target / 0x100 && mem(p + 1) == target % 0x100
      && NameAt(mem, target, dest, limit)
  }

  /** The human-readable form, every label followed by a dot. */
  function Dotted(n: Name): (text: seq<byte>) {
    match n
    case Root => []
    case Label(text, tail) => text + [DOT] + Dotted(tail)
    case Pointer(_, dest) => Dotted(dest)
  }

  /** Bytes the name occupies where it starts; a pointer ends it. */
  function EncodedLen(n: Name): nat {
    match n
    case Root => 1
    case Label(text, tail) => 1 + |text| + EncodedLen(tail)
    case Pointer(_, _) => 2
  }

  /** No pointer aims at another pointer. */
  predicate Direct(n: Name) {
    match n
    case Root => true
    case Label(_, tail) => Direct(tail)
    case Pointer(_, dest) => !dest.Pointer? && Direct(dest)
  }

  // ----- Resource records (sections 3.3 and 4.1.3)

  datatype RData =
    | Address(ip: seq<byte>)
    | SingleName(name: Name)
    | HostInfo(cpu: seq<byte>, os: seq<byte>)
    | Exchange(preference: word, exchange: Name)
    | Authority(mname: Name, rname: Name, numbers: seq<byte>)

  const TYPE_A := 1
  const TYPE_NS := 2
  const TYPE_CNAME := 5
  const TYPE_SOA := 6
  const TYPE_MB := 7
  const TYPE_MG := 8
  const TYPE_MR := 9
  const TYPE_PTR := 12
  const TYPE_HINFO := 13
  const TYPE_MX := 15

  predicate SingleNameType(rtype: int) {
    rtype == TYPE_CNAME || rtype == TYPE_MB || rtype == TYPE_MG || rtype == TYPE_MR ||
    rtype == TYPE_NS || rtype == TYPE_PTR
  }

  /** The data is of the kind its record type asks for. */
  predicate TypeMatches(rtype: int, d: RData) {
    match d
    case Address(ip) => rtype == TYPE_A && |ip| == 4
    case SingleName(_) => SingleNameType(rtype)
    case HostInfo(cpu, os) => rtype == TYPE_HINFO && |cpu| < 0x100 && |os| < 0x100
    case Exchange(_, _) => rtype == TYPE_MX
    case Authority(_, _, numbers) => rtype == TYPE_SOA && |numbers| == 20
  }

  function RDataLen(d: RData): nat {
    match d
    case Address(ip) => |ip|
    case SingleName(name) => EncodedLen(name)
    case HostInfo(cpu, os) => 1 + |cpu| + 1 + |os|
    case Exchange(_, exchange) => 2 + EncodedLen(exchange)
    case Authority(mname, rname, numbers) => EncodedLen(mname) + EncodedLen(rname) + |numbers|
  }

  predicate RDataAt(mem: Memory, p: nat, d: RData) {
    match d
    case Address(ip) => Holds(mem, p, ip)
    case SingleName(name) => NameAt(mem, p, name, RFC_LABEL)
    case HostInfo(cpu, os) =>
      mem(p) == |cpu| && Holds(mem, p + 1, cpu)
      && mem(p + 1 + |cpu|) == |os| && Holds(mem, p + 2 + |cpu|, os)
    case Exchange(preference, exchange) =>
      Word16(mem, p) == preference && NameAt(mem, p + 2, exchange, RFC_LABEL)
    case Authority(mname, rname, numbers) =>
      NameAt(mem, p, mname, RFC_LABEL)
      && NameAt(mem, p + EncodedLen(mname), rname, RFC_LABEL)
      && Holds(mem, p + EncodedLen(mname) + EncodedLen(rname), numbers)
  }

  datatype Record = Record(owner: Name, rtype: word, data: RData)

  /** A well-formed record at p: owner, type, class, TTL, an RDLENGTH that is right, and RDATA. */
  predicate RecordAt(mem: Memory, p: nat, r: Record) {
    var q := p + EncodedLen(r.owner);
    NameAt(mem, p, r.owner, RFC_LABEL)
    && Word16(mem, q) == r.rtype
    && TypeMatches(r.rtype, r.data)
    && Word16(mem, q + 8) == RDataLen(r.data)
    && RDataAt(mem, q + 10, r.data)
  }

  /** Where the record ends, by its own RDLENGTH field. */
  function RecordEnd(mem: Memory, p: nat, r: Record): nat {
    var q := p + EncodedLen(r.owner);
    q + 10 + Word16(mem, q + 8)
  }

  predicate QuestionsAt(mem: Memory, p: nat, names: seq<Name>)
    decreases names
  {
    names == [] ||
    (NameAt(mem, p, names[0], RFC_LABEL) && QuestionsAt(mem, p + EncodedLen(names[0]) + 4, names[1..]))
  }

  function QuestionsEnd(p: nat, names: seq<Name>): nat
    decreases names
  {
    if names == [] then p else QuestionsEnd(p + EncodedLen(names[0]) + 4, names[1..])
  }

  predicate RecordsAt(mem: Memory, p: nat, records: seq<Record>)
    decreases records
  {
    records == [] ||
    (RecordAt(mem, p, records[0]) && RecordsAt(mem, RecordEnd(mem, p, records[0]), records[1..]))
  }

  function RecordsEnd(mem: Memory, p: nat, records: seq<Record>): nat
    decreases records
  {
    if records == [] then p else RecordsEnd(mem, RecordEnd(mem, p, records[0]), records[1..])
  }

  /** The address of the last A record, or what was there before. */
  function LastAddress(records: seq<Record>, before: seq<byte>): seq<byte> {
    if records == [] then before
    else if records[|records| - 1].data.Address? then records[|records| - 1].data.ip
    else LastAddress(records[..|records| - 1], before)
  }
}

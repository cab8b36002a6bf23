/**
 A socket buffer of the chip: a power-of-two memory addressed by two free-running 16-bit
 pointers.  It refines an unbounded byte queue, across wraps of the memory and of the pointers.
 */
module Ring {
  import opened Bytes

  /** The sizes a size register can select, 1 KB to 16 KB; each divides the pointer range. */
  predicate RingSize(size: int) {
    size == 0x400 || size == 0x800 || size == 0x1000 || size == 0x2000 || size == 0x4000
  }

  datatype Ring = Ring(mem: seq<byte>, rd: word, wr: word) {
    function Size(): nat {
      |mem|
    }

    /** Bytes written and not yet read, from the pointers alone. */
    function Used(): nat {
      Wrap(wr - rd)
    }

    predicate Valid() {
      RingSize(|mem|) && Used() <= |mem|
    }

    /** The n bytes from the read pointer on. */
    function Peek(n: nat): (s: seq<byte>)
      requires |mem| > 0
      ensures |s| == n
    {
      seq(n, k requires 0 <= k < n => mem[(rd + k) % |mem|])
    }

    /** The abstract queue. */
    function Queue(): (s: seq<byte>)
      requires |mem| > 0
    {
      Peek(Used())
    }

    function Write(data: seq<byte>): Ring
      requires |mem| > 0
    {
      Ring(Put(mem, wr, data), rd, Wrap(wr + |data|))
    }

    function Skip(n: nat): Ring {
      Ring(mem, Wrap(rd + n), wr)
    }
  }

  /** Memory after data is stored from pointer ptr on: position i receives the byte whose distance
      from ptr, around the ring, is within data. */
  function Put(mem: seq<byte>, ptr: word, data: seq<byte>): (mem': seq<byte>)
    requires |mem| > 0
    ensures |mem'| == |mem|
  {
    seq(|mem|, i requires 0 <= i < |mem| =>
      var k := (i - ptr) % |mem|;
      if k < |data| then data[k] else mem[i])
  }

  // ----- Pointer arithmetic

  /** The 16-bit wrap of a pointer is invisible modulo the ring size. */
  lemma WrapModSize(p: int, size: int)
    requires RingSize(size)
    ensures Wrap(p) % size == p % size
  {
    var q, w := p / 0x1_0000, Wrap(p);
    assert p == q * 0x1_0000 + w;
    if size == 0x400 {
      ModUnique(p, 0x400, q * 0x40 + w / 0x400, w % 0x400);
    } else if size == 0x800 {
      ModUnique(p, 0x800, q * 0x20 + w / 0x800, w % 0x800);
    } else if size == 0x1000 {
      ModUnique(p, 0x1000, q * 0x10 + w / 0x1000, w % 0x1000);
    } else if size == 0x2000 {
      ModUnique(p, 0x2000, q * 8 + w / 0x2000, w % 0x2000);
    } else {
      ModUnique(p, 0x4000, q * 4 + w / 0x4000, w % 0x4000);
    }
  }

  /** Moving a pointer and stepping on from it selects the same place, wrap or no wrap. */
  lemma WrappedPlace(p: int, n: int, k: int, size: int)
    requires RingSize(size)
    ensures (Wrap(p + n) + k) % size == (p + n + k) % size
  {
    WrapModSize(Wrap(p + n) + k, size);
    WrapModSize(p + n + k, size);
    WrapOnce(p + n, k);
    hide Wrap, RingSize;
  }

  lemma WrapOnce(p: int, k: int)
    ensures Wrap(Wrap(p) + k) == Wrap(p + k)
  {
  }

  // ----- Refinement of the queue

  lemma PeekIsPrefix(r: Ring, n: nat)
    requires r.Valid() && n <= r.Used()
    ensures r.Peek(n) == r.Queue()[..n]
  {
  }

  /** Reading: moving the read pointer drops exactly the bytes stepped over. */
  lemma SkipDrops(r: Ring, n: nat)
    requires r.Valid() && n <= r.Used()
    ensures r.Skip(n).Valid() && r.Skip(n).Queue() == r.Queue()[n..]
  {
    var r', left := r.Skip(n), r.Used() - n;
    WrapDifference(r.rd, r.wr, n);
    hide Wrap, RingSize;
    forall k | 0 <= k < left ensures r'.Peek(left)[k] == r.Peek(r.Used())[n + k] {
      WrappedPlace(r.rd, n, k, |r.mem|);
    }
    assert r'.Peek(left) == r.Peek(r.Used())[n..];
  }

  lemma WrapDifference(rd: word, wr: word, n: nat)
    requires n <= Wrap(wr - rd)
    ensures Wrap(wr - Wrap(rd + n)) == Wrap(wr - rd) - n
  {
  }

  /** How far behind the write pointer the j-th byte of the queue lies, going around the ring. */
  function Lag(used: int, size: int, j: int): int {
    if j < used then j + size - used else j - used
  }

  /** A byte of the queue and a byte stored behind the write pointer share a place exactly when
      their distance reaches around the ring. */
  lemma PlaceOf(r: Ring, data: seq<byte>, j: nat)
    requires r.Valid() && j < |r.mem|
    ensures var i := (r.rd + j) % |r.mem|;
            var lag := Lag(r.Used(), |r.mem|, j);
            Put(r.mem, r.wr, data)[i] == if 0 <= lag < |data| then data[lag] else r.mem[i]
  {
    var size, used := |r.mem|, r.Used();
    UsedReaches(r);
    hide Put, Lag, Wrap, Ring.Used, Ring.Valid;
    WrapModSize(r.rd + used, size);
    DistanceFrom(r.rd, used, j, size, r.wr);
    PutAt(r.mem, r.wr, data, (r.rd + j) % size);
  }

  lemma UsedReaches(r: Ring)
    ensures Wrap(r.rd + r.Used()) == r.wr
    ensures r.Valid() ==> RingSize(|r.mem|) && 0 <= r.Used() <= |r.mem|
  {
  }

  lemma PutAt(mem: seq<byte>, ptr: word, data: seq<byte>, i: nat)
    requires i < |mem|
    ensures var k := (i - ptr) % |mem|;
            Put(mem, ptr, data)[i] == if k < |data| then data[k] else mem[i]
  {
  }

  lemma DistanceFrom(rd: int, used: int, j: int, size: int, wr: int)
    requires RingSize(size) && 0 <= used <= size && 0 <= j < size
    requires wr % size == (rd + used) % size
    ensures ((rd + j) % size - wr) % size == Lag(used, size, j)
  {
    var k := if j < used then j + size - used else j - used;
    var a, b, c := (rd + j) / size, wr / size, (rd + used) / size;
    var turns := if j < used then -1 else 0;
    assert (rd + j) % size == rd + j - a * size;
    assert wr == b * size + (rd + used - c * size);
    assert (rd + j) % size - wr == (turns + c - a - b) * size + k by {
      assert (turns + c - a - b) * size == turns * size + c * size - a * size - b * size;
    }
    ModUnique((rd + j) % size - wr, size, turns + c - a - b, k);
  }

  /** Writing: data that fits is appended to the queue, and no byte already there changes. */
  lemma WriteAppends(r: Ring, data: seq<byte>)
    requires r.Valid() && r.Used() + |data| <= |r.mem|
    ensures r.Write(data).Valid() && r.Write(data).Queue() == r.Queue() + data
  {
    var r' := r.Write(data);
    assert r'.Used() == r.Used() + |data|;
    forall j | 0 <= j < r'.Used() ensures r'.Queue()[j] == (r.Queue() + data)[j] {
      PlaceOf(r, data, j);
    }
  }

  /** Data that does not fit overwrites the oldest unread byte: fitting is the exact condition
      under which a write leaves what is queued alone. */
  lemma OverrunHitsOldest(r: Ring, data: seq<byte>)
    requires r.Valid() && r.Used() > 0 && |data| <= |r.mem| < r.Used() + |data|
    ensures Put(r.mem, r.wr, data)[r.rd % |r.mem|] == data[|r.mem| - r.Used()]
  {
    PlaceOf(r, data, 0);
  }

  // ----- Whole runs

  /** The producer appends, the consumer takes. For transmission the driver produces and the chip
      drains on its own schedule; for reception it is the other way round. */
  datatype Op = Produce(data: seq<byte>) | Consume(n: nat)

  predicate Legal(r: Ring, op: Op)
    requires r.Valid()
  {
    match op
    case Produce(data) => r.Used() + |data| <= |r.mem|
    case Consume(n) => n <= r.Used()
  }

  function Step(r: Ring, op: Op): Ring
    requires r.Valid()
  {
    match op
    case Produce(data) => r.Write(data)
    case Consume(n) => r.Skip(n)
  }

  function Given(op: Op): seq<byte> {
    if op.Produce? then op.data else []
  }

  function Taken(r: Ring, op: Op): seq<byte>
    requires r.Valid()
  {
    if op.Consume? then r.Peek(op.n) else []
  }

  lemma StepRefines(r: Ring, op: Op)
    requires r.Valid() && Legal(r, op)
    ensures Step(r, op).Valid()
    ensures Taken(r, op) + Step(r, op).Queue() == r.Queue() + Given(op)
  {
    match op
    case Produce(data) =>
      WriteAppends(r, data);
      assert [] + r.Write(data).Queue() == r.Write(data).Queue();
    case Consume(n) =>
      SkipDrops(r, n);
      PeekIsPrefix(r, n);
      assert r.Queue()[..n] + r.Queue()[n..] == r.Queue() + [];
  }

  ghost predicate LegalRun(r: Ring, ops: seq<Op>)
    decreases ops
  {
    r.Valid() && (ops != [] ==> Legal(r, ops[0]) && LegalRun(Step(r, ops[0]), ops[1..]))
  }

  ghost function Final(r: Ring, ops: seq<Op>): Ring
    requires LegalRun(r, ops)
    decreases ops
  {
    if ops == [] then r else Final(Step(r, ops[0]), ops[1..])
  }

  function Produced(ops: seq<Op>): seq<byte>
    decreases ops
  {
    if ops == [] then [] else Given(ops[0]) + Produced(ops[1..])
  }

  ghost function Consumed(r: Ring, ops: seq<Op>): seq<byte>
    requires LegalRun(r, ops)
    decreases ops
  {
    if ops == [] then []
    else Taken(r, ops[0]) + Consumed(Step(r, ops[0]), ops[1..])
  }

  /** In every run, however the two sides interleave, what was consumed followed by what is still
      queued is what was queued followed by what was produced: nothing is lost, repeated or
      reordered, and the pointers account for the difference. */
  lemma {:induction false} RunIsFifo(r: Ring, ops: seq<Op>)
    requires LegalRun(r, ops)
    ensures Final(r, ops).Valid()
    ensures Consumed(r, ops) + Final(r, ops).Queue() == r.Queue() + Produced(ops)
    ensures |r.Queue()| + |Produced(ops)| == |Consumed(r, ops)| + Wrap(Final(r, ops).wr - Final(r, ops).rd)
    decreases ops
  {
    if ops != [] {
      var r', rest := Step(r, ops[0]), ops[1..];
      StepRefines(r, ops[0]);
      RunIsFifo(r', rest);
      hide *;
      JoinStep(r.Queue(), Taken(r, ops[0]), Given(ops[0]), r'.Queue(),
               Consumed(r', rest), Produced(rest), Final(r', rest).Queue());
    }
  }

  lemma JoinStep(queue: seq<byte>, taken: seq<byte>, given: seq<byte>, queue': seq<byte>,
                 consumed: seq<byte>, produced: seq<byte>, last: seq<byte>)
    requires taken + queue' == queue + given
    requires consumed + last == queue' + produced
    ensures (taken + consumed) + last == queue + (given + produced)
  {
    assert (taken + consumed) + last == taken + (consumed + last);
    assert taken + (queue' + produced) == (taken + queue') + produced;
    assert (queue + given) + produced == queue + (given + produced);
  }
}

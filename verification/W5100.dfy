/**
 The W5100 buffer engine (Ethernet/W5100/w5100.c): byte-wise copies into and out of the chip's
 memory, in two segments when they cross the end of a socket's region, and the base addresses
 obtained by adding up the sizes of the sockets before.  Every call is proved equal to one step
 of the ring of module Ring on its own socket, and to leave every other ring alone.
 */
module W5100 {
  import opened Bytes
  import opened Ring

  const SOCKETS := 4
  const MEMORY := 0x8000
  const TXBUF := 0x4000
  const RXBUF := 0x6000
  /** Each direction has 8 KB of chip memory. */
  const AREA := 0x2000

  /** Two bits of a size register select 1, 2, 4 or 8 KB. */
  type code = c: int | 0 <= c < 4

  function SizeOf(c: code): (size: nat)
    ensures RingSize(size) && size <= AREA
  {
    if c == 0 then 0x400 else if c == 1 then 0x800 else if c == 2 then 0x1000 else 0x2000
  }

  function Total(codes: seq<code>, n: nat): nat
    requires n <= |codes|
  {
    if n == 0 then 0 else Total(codes, n - 1) + SizeOf(codes[n - 1])
  }

  /** Regions follow one another: each ends before any later one begins. */
  lemma {:induction false} RegionEnds(codes: seq<code>, s: nat, n: nat)
    requires s < n <= |codes|
    ensures Total(codes, s) + SizeOf(codes[s]) <= Total(codes, n)
    decreases n
  {
    hide SizeOf;
    if s < n - 1 {
      RegionEnds(codes, s, n - 1);
    }
  }

  /** Memory mem with the n bytes of data from off on stored at addr. */
  function Overwrite(mem: seq<byte>, addr: nat, data: seq<byte>): (mem': seq<byte>)
    requires addr + |data| <= |mem|
    ensures |mem'| == |mem|
  {
    mem[..addr] + data + mem[addr + |data|..]
  }

  /** Where in a ring a pointer points. */
  function Mask(ptr: word, size: nat): (mask: nat)
    requires RingSize(size)
    ensures mask < size
  {
    ptr % size
  }

  /** The driver finds it by masking: the sizes are powers of two. */
  lemma MaskSelects(ptr: word, size: nat)
    requires RingSize(size)
    ensures AndBits(ptr, size - 1, 16) == Mask(ptr, size)
  {
    var k := if size == 0x400 then 10 else if size == 0x800 then 11 else if size == 0x1000 then 12
             else if size == 0x2000 then 13 else 14;
    TenDoublings();
    MaskIsRemainder(ptr, k, 16);
  }

  lemma TenDoublings()
    ensures Pow2(10) == 0x400 && Pow2(11) == 0x800 && Pow2(12) == 0x1000 && Pow2(13) == 0x2000 && Pow2(14) == 0x4000
  {
    assert Pow2(4) == 16;
    assert Pow2(8) == 0x100;
    assert Pow2(12) == 0x1000;
  }

  /** A write inside a window changes that window and nothing outside it. */
  lemma OverwriteWindow(mem: seq<byte>, base: nat, size: nat, at: nat, data: seq<byte>)
    requires base + size <= |mem| && at + |data| <= size
    ensures var mem' := Overwrite(mem, base + at, data);
            mem'[base..base + size] == Overwrite(mem[base..base + size], at, data)
            && OnlyWithin(mem, mem', base, size)
  {
    var mem', window := Overwrite(mem, base + at, data), Overwrite(mem[base..base + size], at, data);
    forall i | 0 <= i < |mem|
      ensures mem'[i] == if base <= i < base + size then window[i - base] else mem[i]
    {
      OverwriteAt(mem, base + at, data, i);
      if base <= i < base + size {
        OverwriteAt(mem[base..base + size], at, data, i - base);
      }
    }
    hide Overwrite;
    assert mem'[base..base + size] == window;
    assert mem'[..base] == mem[..base];
    assert mem'[base + size..] == mem[base + size..];
  }

  lemma OverwriteAt(mem: seq<byte>, addr: nat, data: seq<byte>, i: nat)
    requires addr + |data| <= |mem| && i < |mem|
    ensures Overwrite(mem, addr, data)[i] == if addr <= i < addr + |data| then data[i - addr] else mem[i]
  {
  }

  /** One byte more. */
  lemma OverwriteMore(mem: seq<byte>, addr: nat, data: seq<byte>, b: byte)
    requires addr + |data| < |mem|
    ensures Overwrite(mem, addr, data)[addr + |data| := b] == Overwrite(mem, addr, data + [b])
  {
  }

  lemma OverwriteNone(mem: seq<byte>, addr: nat)
    requires addr <= |mem|
    ensures Overwrite(mem, addr, []) == mem
  {
  }

  /** One element more of a slice. */
  lemma SliceMore(s: seq<byte>, i: nat, n: nat)
    requires i + n < |s|
    ensures s[i..i + (n + 1)] == s[i..i + n] + [s[i + n]]
  {
  }

  lemma TwoWindows(mem: seq<byte>, base: nat, size: nat, at: nat, first: seq<byte>, second: seq<byte>)
    requires base + size <= |mem| && at + |first| <= size && |second| <= size
    ensures var mem' := Overwrite(Overwrite(mem, base + at, first), base, second);
            mem'[base..base + size] == Overwrite(Overwrite(mem[base..base + size], at, first), 0, second)
            && OnlyWithin(mem, mem', base, size)
  {
    hide Overwrite;
    OverwriteWindow(mem, base, size, at, first);
    OverwriteWindow(Overwrite(mem, base + at, first), base, size, 0, second);
  }

  /** The ring position of distance (i - ptr) mod size, without the modulus. */
  lemma DistanceAtMask(i: nat, ptr: nat, size: nat)
    requires RingSize(size) && i < size
    ensures var mask := ptr % size;
            (i - ptr) % size == if i >= mask then i - mask else i - mask + size
  {
    var mask, q := ptr % size, ptr / size;
    assert ptr == q * size + mask;
    if i >= mask {
      ModUnique(i - ptr, size, -q, i - mask);
    } else {
      assert (-q - 1) * size == -(q * size) - size;
      ModUnique(i - ptr, size, -q - 1, i - mask + size);
    }
  }

  /** Ring storage is one segment, or two when the data crosses the end of the region. */
  lemma PutSegments(region: seq<byte>, ptr: word, data: seq<byte>)
    requires RingSize(|region|) && |data| <= |region|
    ensures var mask := Mask(ptr, |region|);
            var n := |region| - mask;
            Put(region, ptr, data) ==
            if mask + |data| > |region|
            then Overwrite(Overwrite(region, mask, data[..n]), 0, data[n..])
            else Overwrite(region, mask, data)
  {
    var size, mask := |region|, Mask(ptr, |region|);
    forall i | 0 <= i < size
      ensures Put(region, ptr, data)[i] ==
              if mask + |data| > size
              then Overwrite(Overwrite(region, mask, data[..size - mask]), 0, data[size - mask..])[i]
              else Overwrite(region, mask, data)[i]
    {
      PutAt(region, ptr, data, i);
      DistanceAtMask(i, ptr, size);
    }
  }

  /** The ring at base has taken the data, and nothing else has changed. */
  predicate Stored(before: seq<byte>, after: seq<byte>, base: nat, size: nat, ptr: word, data: seq<byte>)
    requires base + size <= |before| && size > 0
  {
    OnlyWithin(before, after, base, size) && after[base..base + size] == Put(before[base..base + size], ptr, data)
  }

  /** In the whole memory: one segment stores the data in the ring and nothing else. */
  lemma StoredInOne(mem: seq<byte>, base: nat, size: nat, ptr: word, data: seq<byte>)
    requires RingSize(size) && base + size <= |mem| && Mask(ptr, size) + |data| <= size
    ensures Stored(mem, Overwrite(mem, base + Mask(ptr, size), data), base, size, ptr, data)
  {
    var region := mem[base..base + size];
    assert |region| == size;
    PutSegments(region, ptr, data);
    hide Put, Overwrite, OnlyWithin, Mask;
    assert Put(region, ptr, data) == Overwrite(region, Mask(ptr, size), data);
    OverwriteWindow(mem, base, size, Mask(ptr, size), data);
  }

  /** So do two, when the data crosses the end. */
  lemma StoredInTwo(mem: seq<byte>, base: nat, size: nat, ptr: word, data: seq<byte>)
    requires RingSize(size) && base + size <= |mem| && |data| <= size < Mask(ptr, size) + |data|
    ensures var mask := Mask(ptr, size);
            var n := size - mask;
            Stored(mem, Overwrite(Overwrite(mem, base + mask, data[..n]), base, data[n..]), base, size, ptr, data)
  {
    var region, mask := mem[base..base + size], Mask(ptr, size);
    assert |region| == size;
    PutSegments(region, ptr, data);
    hide Put, Overwrite, OnlyWithin, Mask;
    var first, second := data[..size - mask], data[size - mask..];
    assert Put(region, ptr, data) == Overwrite(Overwrite(region, mask, first), 0, second);
    TwoWindows(mem, base, size, mask, first, second);
  }

  lemma PlaceAtMask(ptr: nat, k: nat, size: nat)
    requires RingSize(size) && k < size
    ensures var mask := ptr % size;
            (ptr + k) % size == if mask + k < size then mask + k else mask + k - size
  {
    var mask, q := ptr % size, ptr / size;
    assert ptr == q * size + mask;
    if mask + k < size {
      ModUnique(ptr + k, size, q, mask + k);
    } else {
      assert (q + 1) * size == q * size + size;
      ModUnique(ptr + k, size, q + 1, mask + k - size);
    }
  }

  /** Ring contents likewise. */
  lemma PeekSegments(r: Ring, n: nat)
    requires RingSize(|r.mem|) && n <= |r.mem|
    ensures var mask := Mask(r.rd, |r.mem|);
            r.Peek(n) == if mask + n > |r.mem|
                         then r.mem[mask..] + r.mem[..n - (|r.mem| - mask)]
                         else r.mem[mask..mask + n]
  {
    forall k | 0 <= k < n
      ensures var mask := Mask(r.rd, |r.mem|);
              r.Peek(n)[k] == r.mem[if mask + k < |r.mem| then mask + k else mask + k - |r.mem|]
    {
      PlaceAtMask(r.rd, k, |r.mem|);
    }
  }

  lemma SliceOfSlice(s: seq<byte>, i: nat, j: nat, k: nat, l: nat)
    requires i <= j <= |s| && k <= l <= j - i
    ensures s[i..j][k..l] == s[i + k..i + l]
    ensures s[i..j][k..] == s[i + k..j]
    ensures s[i..j][..l] == s[i..i + l]
  {
    forall x | 0 <= x < l - k ensures s[i..j][k..l][x] == s[i + k..i + l][x] {
      assert s[i..j][k..l][x] == s[i..j][k + x];
    }
  }

  lemma SliceSplit(s: seq<byte>, i: nat, j: nat, n: nat)
    requires i <= j <= |s| && n <= j - i
    ensures s[i..j][..n] == s[i..i + n] && s[i..j][n..] == s[i + n..j]
  {
  }

  lemma SliceOfPrefix(a: seq<byte>, b: seq<byte>, n: nat, i: nat, j: nat)
    requires i <= j <= n <= |a| && n <= |b| && a[..n] == b[..n]
    ensures a[i..j] == b[i..j]
  {
    assert a[i..j] == a[..n][i..j];
    assert b[i..j] == b[..n][i..j];
  }

  lemma SliceOfSuffix(a: seq<byte>, b: seq<byte>, n: nat, i: nat, j: nat)
    requires n <= i <= j <= |a| == |b| && a[n..] == b[n..]
    ensures a[i..j] == b[i..j]
  {
    forall k | i <= k < j ensures a[k] == b[k] {
      assert a[k] == a[n..][k - n] && b[k] == b[n..][k - n];
    }
  }

  lemma TwoWrites(buf: seq<byte>, off: nat, first: seq<byte>, second: seq<byte>)
    requires off + |first| + |second| <= |buf|
    ensures Overwrite(Overwrite(buf, off, first), off + |first|, second) == Overwrite(buf, off, first + second)
  {
  }

  /** Copying out of a ring in one segment, or in two. */
  lemma PeekOneSegment(mem: seq<byte>, base: nat, size: nat, ptr: word, len: nat)
    requires RingSize(size) && base + size <= |mem| && Mask(ptr, size) + len <= size
    ensures var at := base + Mask(ptr, size);
            Ring(mem[base..base + size], ptr, ptr).Peek(len) == mem[at..at + len]
  {
    var region, mask := mem[base..base + size], Mask(ptr, size);
    PeekSegments(Ring(region, ptr, ptr), len);
    hide *;
    SliceOfSlice(mem, base, base + size, mask, mask + len);
  }

  lemma PeekTwoSegments(buf: seq<byte>, off: nat, mem: seq<byte>, base: nat, size: nat, ptr: word, len: nat)
    requires RingSize(size) && base + size <= |mem| && off + len <= |buf| && len <= size < Mask(ptr, size) + len
    ensures var at := base + Mask(ptr, size);
            var n := size - Mask(ptr, size);
            Overwrite(buf, off, Ring(mem[base..base + size], ptr, ptr).Peek(len)) ==
            Overwrite(Overwrite(buf, off, mem[at..at + n]), off + n, mem[base..base + (len - n)])
  {
    var region, mask := mem[base..base + size], Mask(ptr, size);
    PeekSegments(Ring(region, ptr, ptr), len);
    hide *;
    assert Ring(region, ptr, ptr).Peek(len) == region[mask..] + region[..len - (size - mask)];
    TwoSegmentsOut(buf, off, mem, base, size, mask, len);
  }

  lemma TwoSegmentsOut(buf: seq<byte>, off: nat, mem: seq<byte>, base: nat, size: nat, mask: nat, len: nat)
    requires base + size <= |mem| && off + len <= |buf| && mask < size && len <= size < mask + len
    ensures var n := size - mask;
            var region := mem[base..base + size];
            Overwrite(buf, off, region[mask..] + region[..len - n]) ==
            Overwrite(Overwrite(buf, off, mem[base + mask..base + mask + n]), off + n, mem[base..base + (len - n)])
  {
    hide Overwrite;
    var n := size - mask;
    var region := mem[base..base + size];
    SliceOfSlice(mem, base, base + size, mask, size);
    SliceOfSlice(mem, base, base + size, 0, len - n);
    TwoWrites(buf, off, region[mask..], region[..len - n]);
  }

  /** The part of memory that belongs to socket sn in the buffer area of one direction. */
  function Region(mem: seq<byte>, area: nat, codes: seq<code>, sn: nat): (s: seq<byte>)
    requires sn < |codes| && Total(codes, |codes|) <= AREA && area + AREA <= |mem|
    ensures |s| == SizeOf(codes[sn])
  {
    RegionEnds(codes, sn, |codes|);
    var base := area + Total(codes, sn);
    mem[base..base + SizeOf(codes[sn])]
  }

  /** A write confined to the region of sn leaves the regions of the other sockets alone. */
  lemma OtherSocket(before: seq<byte>, after: seq<byte>, area: nat, codes: seq<code>, sn: nat, s: nat)
    requires sn < |codes| && s < |codes| && s != sn
    requires Total(codes, |codes|) <= AREA && area + AREA <= |before|
    requires OnlyWithin(before, after, area + Total(codes, sn), SizeOf(codes[sn]))
    ensures Region(after, area, codes, s) == Region(before, area, codes, s)
  {
    hide Total, SizeOf, OnlyWithin;
    if s < sn {
      RegionEnds(codes, s, sn);
    } else {
      RegionEnds(codes, sn, s);
    }
    RegionEnds(codes, s, |codes|);
    OtherRegion(before, after, area + Total(codes, sn), SizeOf(codes[sn]),
                area + Total(codes, s), SizeOf(codes[s]));
  }

  /** A write confined to one area leaves every region of the other area alone. */
  lemma OtherArea(before: seq<byte>, after: seq<byte>, base: nat, size: nat,
                  area: nat, codes: seq<code>, s: nat)
    requires s < |codes| && Total(codes, |codes|) <= AREA && area + AREA <= |before|
    requires OnlyWithin(before, after, base, size) && (base + size <= area || area + AREA <= base)
    ensures Region(after, area, codes, s) == Region(before, area, codes, s)
  {
    RegionEnds(codes, s, |codes|);
    hide Total, SizeOf, OnlyWithin;
    OtherRegion(before, after, base, size, area + Total(codes, s), SizeOf(codes[s]));
  }

  /** Memory outside [base, base + size) is as before. */
  predicate OnlyWithin(before: seq<byte>, after: seq<byte>, base: nat, size: nat) {
    |before| == |after| && base + size <= |before|
    && after[..base] == before[..base] && after[base + size..] == before[base + size..]
  }

  lemma OtherRegion(before: seq<byte>, after: seq<byte>, base: nat, size: nat, base': nat, size': nat)
    requires OnlyWithin(before, after, base, size) && base' + size' <= |before|
    requires base' + size' <= base || base + size <= base'
    ensures after[base'..base' + size'] == before[base'..base' + size']
  {
    if base' + size' <= base {
      SliceOfPrefix(after, before, base, base', base' + size');
    } else {
      SliceOfSuffix(after, before, base + size, base', base' + size');
    }
  }

  class W5100 {
    /** The chip's address space; buffers lie at TXBUF and RXBUF. */
    const mem: array<byte>
    var txCodes: seq<code>
    var rxCodes: seq<code>
    var txRd: seq<word>
    var txWr: seq<word>
    var rxRd: seq<word>
    var rxWr: seq<word>

    /** One direction's registers are there, and its sizes fit the area. */
    predicate Shaped(codes: seq<code>, rd: seq<word>, wr: seq<word>) {
      |codes| == |rd| == |wr| == SOCKETS && Total(codes, SOCKETS) <= AREA
    }

    ghost predicate Valid()
      reads this
    {
      mem.Length == MEMORY && Shaped(txCodes, txRd, txWr) && Shaped(rxCodes, rxRd, rxWr)
    }

    ghost function Tx(sn: nat): Ring
      requires Valid() && sn < SOCKETS
      reads this, mem
    {
      Ring(Region(mem[..], TXBUF, txCodes, sn), txRd[sn], txWr[sn])
    }

    ghost function Rx(sn: nat): Ring
      requires Valid() && sn < SOCKETS
      reads this, mem
    {
      Ring(Region(mem[..], RXBUF, rxCodes, sn), rxRd[sn], rxWr[sn])
    }

    // ----- Byte loops

    method WriteBuf(addr: nat, data: array<byte>, off: nat, len: nat)
      requires addr + len <= mem.Length && off + len <= data.Length && data != mem
      modifies mem
      ensures mem[..] == Overwrite(old(mem[..]), addr, old(data[..])[off..off + len])
      ensures data[..] == old(data[..])
    {
      hide Overwrite;
      ghost var before, source := mem[..], data[..];
      OverwriteNone(before, addr);
      assert source[off..off] == [];
      var i := 0;
      while i < len
        invariant 0 <= i <= len && data[..] == source
        invariant mem[..] == Overwrite(before, addr, source[off..off + i])
      {
        ghost var was := mem[..];
        mem[addr + i] := data[off + i];
        assert mem[..] == was[addr + i := source[off + i]];
        OverwriteMore(before, addr, source[off..off + i], source[off + i]);
        SliceMore(source, off, i);
        i := i + 1;
      }
    }

    method ReadBuf(addr: nat, buf: array<byte>, off: nat, len: nat)
      requires addr + len <= mem.Length && off + len <= buf.Length && buf != mem
      modifies buf
      ensures buf[..] == Overwrite(old(buf[..]), off, old(mem[..])[addr..addr + len])
      ensures mem[..] == old(mem[..])
    {
      hide Overwrite;
      ghost var before, source := buf[..], mem[..];
      OverwriteNone(before, off);
      assert source[addr..addr] == [];
      var i := 0;
      while i < len
        invariant 0 <= i <= len && mem[..] == source
        invariant buf[..] == Overwrite(before, off, source[addr..addr + i])
      {
        ghost var was := buf[..];
        buf[off + i] := mem[addr + i];
        assert buf[..] == was[off + i := source[addr + i]];
        OverwriteMore(before, off, source[addr..addr + i], source[addr + i]);
        SliceMore(source, addr, i);
        i := i + 1;
      }
    }

    method BaseOf(area: nat, codes: seq<code>, sn: nat) returns (base: nat)
      requires sn <= |codes|
      ensures base == area + Total(codes, sn)
    {
      base := area;
      var i := 0;
      while i < sn
        invariant 0 <= i <= sn && base == area + Total(codes, i)
      {
        base := base + SizeOf(codes[i]);
        i := i + 1;
      }
    }

    // ----- Copies between the application and a ring

    /** ptr & (size - 1). */
    static method MaskOf(ptr: word, size: nat) returns (mask: nat)
      requires RingSize(size)
      ensures mask == Mask(ptr, size)
    {
      MaskSelects(ptr, size);
      mask := AndBits(ptr, size - 1, 16);
    }

    /** The copy of wiz_send_data: one segment, or two when the data crosses the region's end. */
    method CopyIn(base: nat, size: nat, ptr: word, data: array<byte>, off: nat, len: nat)
      requires RingSize(size) && base + size <= mem.Length && data != mem
      requires off + len <= data.Length && len <= size
      modifies mem
      ensures Stored(old(mem[..]), mem[..], base, size, ptr, old(data[..])[off..off + len])
    {
      ghost var before, bytes := mem[..], data[..][off..off + len];
      hide *;
      var mask := MaskOf(ptr, size);
      if mask + len > size {
        StoredInTwo(before, base, size, ptr, bytes);
        WriteTwo(base + mask, size - mask, base, data, off, len);
      } else {
        StoredInOne(before, base, size, ptr, bytes);
        WriteBuf(base + mask, data, off, len);
      }
    }

    /** The first n bytes in one segment, the others in another. */
    method WriteTwo(addr1: nat, n: nat, addr2: nat, data: array<byte>, off: nat, len: nat)
      requires n <= len && addr1 + n <= mem.Length && addr2 + (len - n) <= mem.Length
      requires off + len <= data.Length && data != mem
      modifies mem
      ensures var bytes := old(data[..])[off..off + len];
              mem[..] == Overwrite(Overwrite(old(mem[..]), addr1, bytes[..n]), addr2, bytes[n..])
      ensures data[..] == old(data[..])
    {
      hide *;
      SliceSplit(data[..], off, off + len, n);
      WriteBuf(addr1, data, off, n);
      WriteBuf(addr2, data, off + n, len - n);
    }

    method CopyOut(base: nat, size: nat, ptr: word, buf: array<byte>, off: nat, len: nat)
      requires RingSize(size) && base + size <= mem.Length && buf != mem
      requires off + len <= buf.Length && len <= size
      modifies buf
      ensures buf[..] == Overwrite(old(buf[..]), off, Ring(old(mem[..])[base..base + size], ptr, ptr).Peek(len))
      ensures mem[..] == old(mem[..])
    {
      hide *;
      var mask := MaskOf(ptr, size);
      if mask + len > size {
        var n := size - mask;
        PeekTwoSegments(buf[..], off, mem[..], base, size, ptr, len);
        ReadTwo(base + mask, n, base, len - n, buf, off);
      } else {
        PeekOneSegment(mem[..], base, size, ptr, len);
        ReadBuf(base + mask, buf, off, len);
      }
    }

    /** Two segments, one after the other. */
    method ReadTwo(addr1: nat, n1: nat, addr2: nat, n2: nat, buf: array<byte>, off: nat)
      requires addr1 + n1 <= mem.Length && addr2 + n2 <= mem.Length
      requires off + n1 + n2 <= buf.Length && buf != mem
      modifies buf
      ensures buf[..] == Overwrite(Overwrite(old(buf[..]), off, old(mem[..])[addr1..addr1 + n1]),
                                   off + n1, old(mem[..])[addr2..addr2 + n2])
      ensures mem[..] == old(mem[..])
    {
      hide *;
      ReadBuf(addr1, buf, off, n1);
      ReadBuf(addr2, buf, off + n1, n2);
    }

    /** Copies data to the transmit ring of sn and advances its write pointer. */
    method SendData(sn: nat, data: array<byte>, off: nat, len: nat)
      requires Valid() && sn < SOCKETS && data != mem
      requires off + len <= data.Length && len <= Tx(sn).Size()
      modifies this`txWr, mem
      ensures Valid()
      ensures Tx(sn) == old(Tx(sn)).Write(old(data[..])[off..off + len])
      ensures forall s :: 0 <= s < SOCKETS && s != sn ==> Tx(s) == old(Tx(s))
      ensures forall s :: 0 <= s < SOCKETS ==> Rx(s) == old(Rx(s))
    {
      var ptr := txWr[sn];
      var size := SizeOf(txCodes[sn]);
      var base := BaseOf(TXBUF, txCodes, sn);
      RegionEnds(txCodes, sn, SOCKETS);
      CopyIn(base, size, ptr, data, off, len);
      txWr := txWr[sn := Wrap(ptr + len)];
      hide Total, SizeOf, OnlyWithin, Region;
      forall s | 0 <= s < SOCKETS && s != sn ensures Tx(s) == old(Tx(s)) {
        OtherSocket(old(mem[..]), mem[..], TXBUF, txCodes, sn, s);
      }
      forall s | 0 <= s < SOCKETS ensures Rx(s) == old(Rx(s)) {
        OtherArea(old(mem[..]), mem[..], base, size, RXBUF, rxCodes, s);
      }
    }

    /** Copies len bytes from the receive ring of sn to buf and advances its read pointer. */
    method RecvData(sn: nat, buf: array<byte>, off: nat, len: nat)
      requires Valid() && sn < SOCKETS && buf != mem
      requires off + len <= buf.Length && len <= Rx(sn).Size()
      modifies this`rxRd, buf
      ensures Valid()
      ensures buf[..] == Overwrite(old(buf[..]), off, old(Rx(sn)).Peek(len))
      ensures Rx(sn) == old(Rx(sn)).Skip(len)
      ensures forall s :: 0 <= s < SOCKETS && s != sn ==> Rx(s) == old(Rx(s))
      ensures forall s :: 0 <= s < SOCKETS ==> Tx(s) == old(Tx(s))
    {
      var ptr := rxRd[sn];
      var size := SizeOf(rxCodes[sn]);
      var base := BaseOf(RXBUF, rxCodes, sn);
      RegionEnds(rxCodes, sn, SOCKETS);
      CopyOut(base, size, ptr, buf, off, len);
      rxRd := rxRd[sn := Wrap(ptr + len)];
    }

    /** Discards len received bytes of sn. */
    method RecvIgnore(sn: nat, len: nat)
      requires Valid() && sn < SOCKETS
      modifies this`rxRd
      ensures Valid()
      ensures Rx(sn) == old(Rx(sn)).Skip(len)
      ensures forall s :: 0 <= s < SOCKETS && s != sn ==> Rx(s) == old(Rx(s))
      ensures forall s :: 0 <= s < SOCKETS ==> Tx(s) == old(Tx(s))
    {
      rxRd := rxRd[sn := Wrap(rxRd[sn] + len)];
    }
  }
}

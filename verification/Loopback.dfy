/**
 The TCP echo server of Application/loopback/loopback.c over the socket layer: what goes into the
 transmit buffer is, byte for byte and in order, what was taken from the receive buffer.
 */
module Loopback {
  import opened Bytes
  import opened Chip
  import opened Codes
  import opened Locks
  import opened SocketState
  import opened Clock
  import S = Socket

  const DATA_BUF_SIZE := 2048

  /** Everything sent on this connection is what was taken from it. */
  predicate Echoed(c: Chip) {
    c.taken <= |c.arrived| && c.sent == c.arrived[..c.taken]
  }

  /** Taking n bytes and sending the first k of them. */
  predicate Relayed(a: Chip, b: Chip, n: nat, k: nat) {
    k <= n && b.taken == a.taken + n <= |b.arrived| && a.arrived <= b.arrived
    && b.sent == a.sent + b.arrived[a.taken..b.taken][..k]
  }

  lemma TookRelays(a: Chip, b: Chip, n: nat)
    requires Took(a, b, n)
    ensures Relayed(a, b, n, 0)
  {
    assert b.arrived[a.taken..b.taken][..0] == [];
    assert a.sent + [] == a.sent;
  }

  lemma SendRelays(a: Chip, b: Chip, c: Chip, n: nat, k: nat, piece: seq<byte>)
    requires Relayed(a, b, n, k) && Moved(b, c, piece) && k + |piece| <= n
    requires piece == b.arrived[a.taken..b.taken][k..k + |piece|]
    ensures Relayed(a, c, n, k + |piece|)
    ensures c.arrived[a.taken..c.taken] == b.arrived[a.taken..b.taken]
  {
    var all := b.arrived[a.taken..b.taken];
    assert c.arrived[a.taken..c.taken] == all;
    assert all[..k] + all[k..k + |piece|] == all[..k + |piece|];
    assert (a.sent + all[..k]) + piece == a.sent + (all[..k] + piece);
  }

  lemma QuietRelays(a: Chip, b: Chip, c: Chip, n: nat, k: nat)
    requires Relayed(a, b, n, k) && Quiet(b, c)
    ensures Relayed(a, c, n, k)
  {
    assert c.arrived[a.taken..c.taken] == b.arrived[a.taken..b.taken];
  }

  lemma EchoedRelays(a: Chip, b: Chip, n: nat)
    requires Echoed(a) && Relayed(a, b, n, n)
    ensures Echoed(b)
  {
    assert b.arrived[a.taken..b.taken][..n] == b.arrived[a.taken..b.taken];
    assert a.arrived[..a.taken] == b.arrived[..a.taken];
    assert b.arrived[..a.taken] + b.arrived[a.taken..b.taken] == b.arrived[..b.taken];
  }

  /** The inner loop: sends what buf holds, piece by piece.  It stops early only on an error, which
      closes the socket, or when a piece finds no room on a nonblocking socket (or one without a
      transmit buffer), and then the unsent rest is lost. */
  method Relay(sock: S.Socket, buf: array<byte>, size: nat, ghost start: Chip) returns (r: int, sentsize: nat)
    requires sock.Valid() && 0 < size <= buf.Length && size < 0x1_0000
    requires Relayed(start, sock.dev.c, size, 0)
    requires buf[..size] == sock.dev.c.arrived[start.taken..sock.dev.c.taken]
    modifies sock`s, sock`history, sock`locks, sock.dev, sock.clock
    ensures sock.Valid() && sentsize <= size
    ensures r >= 0 ==> Relayed(start, sock.dev.c, size, sentsize)
    ensures r >= 0 ==> sock.s == old(sock.s).(isSending := sock.s.isSending)
    ensures r >= 0 && sentsize < size ==> sock.s.nonblocking || sock.txMax == 0
    ensures r < 0 && sock.sn < SOCKETS ==> sock.s.mode == 0
  {
    hide ChipOk, Recorded, Logged, Linked, Quiet, Moved, Relayed;
    r, sentsize := 0, 0;
    RelayedBounds(start, sock.dev.c, size, 0);
    while size != sentsize
      invariant sock.Valid() && 0 <= sentsize <= size && r >= 0
      invariant Relayed(start, sock.dev.c, size, sentsize)
      invariant start.taken <= sock.dev.c.taken <= |sock.dev.c.arrived|
      invariant buf[..size] == sock.dev.c.arrived[start.taken..sock.dev.c.taken]
      invariant sock.s == old(sock.s).(isSending := sock.s.isSending)
      decreases size - sentsize
    {
      ghost var before := sock.dev.c;
      r := sock.Send(buf, sentsize, size - sentsize);
      if r < 0 {
        var closed, shown := sock.Close();
        return;
      }
      if r == SOCK_BUSY {
        QuietRelays(start, before, sock.dev.c, size, sentsize);
        return;
      }
      SliceOfTake(buf[..], size, sentsize, sentsize + r);
      SendRelays(start, before, sock.dev.c, size, sentsize, buf[sentsize..sentsize + r]);
      RelayedBounds(start, sock.dev.c, size, sentsize + r);
      sentsize := sentsize + r;
    }
  }

  lemma SliceOfTake(s: seq<byte>, n: nat, i: nat, j: nat)
    requires i <= j <= n <= |s|
    ensures s[..n][i..j] == s[i..j]
  {
  }

  lemma RelayedBounds(a: Chip, b: Chip, n: nat, k: nat)
    requires Relayed(a, b, n, k)
    ensures a.taken <= b.taken == a.taken + n <= |b.arrived|
  {
  }

  /** What a call of the server has done to a connection it did not start. */
  ghost predicate Served(a: Chip, b: Chip, lossless: bool) {
    exists n: nat, k: nat :: Relayed(a, b, n, k) && (lossless ==> k == n)
  }

  lemma ServesNothing(a: Chip, b: Chip, lossless: bool)
    requires Quiet(a, b) && b.taken <= |b.arrived|
    ensures Served(a, b, lossless)
  {
    assert b.arrived[a.taken..b.taken] == [] && a.sent + [] == a.sent;
    assert Relayed(a, b, 0, 0);
  }

  lemma QuietThenServes(a: Chip, b: Chip, c: Chip, lossless: bool)
    requires Quiet(a, b) && Served(b, c, lossless)
    ensures Served(a, c, lossless)
  {
    var n: nat, k: nat :| Relayed(b, c, n, k) && (lossless ==> k == n);
    assert Relayed(a, c, n, k);
  }

  lemma StreamBounds(s: Statics, c: Chip, inSync: bool, begun: nat)
    requires ChipOk(c) && Linked(s, c, inSync, begun) && s.health.Healthy? && Tcp(s.mode)
    ensures c.taken <= |c.arrived| && s.mode != 0
  {
    ModesApart(s.mode);
  }

  /** The branch for an established connection. */
  method Echo(sock: S.Socket, buf: array<byte>) returns (r: int)
    requires sock.Valid() && buf.Length >= DATA_BUF_SIZE
    modifies sock`s, sock`history, sock`locks, sock.dev, sock.clock, buf
    ensures sock.Valid()
    ensures r >= 0 && sock.s.health.Healthy? && Tcp(sock.s.mode) ==>
              sock.s == old(sock.s).(isSending := sock.s.isSending)
              && Served(old(sock.dev.c), sock.dev.c, !sock.s.nonblocking && sock.txMax > 0)
  {
    hide ChipOk, Recorded, Logged, Linked, Quiet, Moved, Took, Relayed, Served, Tcp;
    ghost var start := sock.dev.c;
    var size := sock.ReadRegister();
    if sock.s.health.Healthy? && Tcp(sock.s.mode) {
      StreamBounds(sock.s, sock.dev.c, sock.inSync, sock.begun);
      ServesNothing(start, sock.dev.c, !sock.s.nonblocking && sock.txMax > 0);
    }
    if size == 0 {
      return 1;
    }
    ghost var before := sock.dev.c;
    r := sock.Recv(buf, Min(size, DATA_BUF_SIZE));
    if r <= 0 {
      if r == 0 && sock.s.health.Healthy? && Tcp(sock.s.mode) {
        StreamBounds(sock.s, sock.dev.c, sock.inSync, sock.begun);
        ServesNothing(before, sock.dev.c, !sock.s.nonblocking && sock.txMax > 0);
        QuietThenServes(start, before, sock.dev.c, !sock.s.nonblocking && sock.txMax > 0);
      }
      return;
    }
    TookRelays(before, sock.dev.c, r);
    ghost var n := r;
    var sentsize;
    r, sentsize := Relay(sock, buf, r, before);
    if r < 0 {
      return;
    }
    if sock.s.health.Healthy? && Tcp(sock.s.mode) {
      assert sock.s.mode != 0;
      RelayServes(before, sock.dev.c, n, sentsize, !sock.s.nonblocking && sock.txMax > 0);
      QuietThenServes(start, before, sock.dev.c, !sock.s.nonblocking && sock.txMax > 0);
    }
    return 1;
  }

  lemma RelayServes(a: Chip, b: Chip, n: nat, k: nat, lossless: bool)
    requires Relayed(a, b, n, k) && (lossless ==> k == n)
    ensures Served(a, b, lossless)
  {
  }

  /** One call of loopback_tcps.  Unless it returns an error, it has started a connection afresh, or
      has relayed some bytes: all it took, on a blocking socket with a transmit buffer. */
  method LoopbackTcps(sock: S.Socket, buf: array<byte>, port: word) returns (r: int)
    requires sock.Valid() && buf.Length >= DATA_BUF_SIZE
    modifies sock`s, sock`history, sock`locks, sock`inSync, sock`begun, sock`anyPort, sock.dev, sock.clock, buf
    ensures sock.Valid()
    ensures r >= 0 && sock.s.health.Healthy? && Tcp(sock.s.mode) ==>
              (sock.dev.c.sent == [] && sock.dev.c.taken == 0 && !sock.s.nonblocking)
              || (sock.s == old(sock.s).(isSending := sock.s.isSending)
                  && Served(old(sock.dev.c), sock.dev.c, !sock.s.nonblocking && sock.txMax > 0))
  {
    hide ChipOk, Recorded, Logged, Linked, Quiet, Served, Tcp, And, ModeOf, Took, Moved, InStep, Elapsed, FormatOf;
    ghost var start := sock.dev.c;
    var status := sock.ReadRegister();
    ghost var before := sock.dev.c;
    if sock.s.health.Healthy? && Tcp(sock.s.mode) {
      StreamBounds(sock.s, sock.dev.c, sock.inSync, sock.begun);
    }
    if status == SR_ESTABLISHED {
      r := Echo(sock, buf);
      if r >= 0 && sock.s.health.Healthy? && Tcp(sock.s.mode) {
        QuietThenServes(start, before, sock.dev.c, !sock.s.nonblocking && sock.txMax > 0);
      }
      return;
    }
    if status == SR_CLOSED {
      NoFlags();
      r := sock.Open(MR_TCP, port, 0);
      return if r == sock.sn then 1 else r;
    }
    r := Attend(sock, status);
    if r == SOCK_OK && sock.s.health.Healthy? && Tcp(sock.s.mode) {
      QuietTwice(start, before, sock.dev.c);
      StreamBounds(sock.s, sock.dev.c, sock.inSync, sock.begun);
      ServesNothing(start, sock.dev.c, !sock.s.nonblocking && sock.txMax > 0);
    }
  }

  /** The branches that move no data. */
  method Attend(sock: S.Socket, status: word) returns (r: int)
    requires sock.Valid()
    modifies sock`s, sock`history, sock`locks, sock.dev, sock.clock
    ensures sock.Valid() && (r == SOCK_OK || r < 0)
    ensures r == SOCK_OK && sock.s.health.Healthy? && Tcp(sock.s.mode) ==>
              sock.s == old(sock.s).(isSending := sock.s.isSending) && Quiet(old(sock.dev.c), sock.dev.c)
  {
    hide ChipOk, Recorded, Logged, Linked, Quiet, DisconnectEvents, InStep, Elapsed, EventsOk, FormatOf;
    ghost var start := sock.dev.c;
    QuietSelf(start);
    if status == SR_CLOSE_WAIT {
      r := sock.Disconnect();
    } else if status == SR_INIT {
      r := sock.Listen();
      if sock.s.health.Healthy? && Tcp(sock.s.mode) {
        StreamBounds(sock.s, sock.dev.c, sock.inSync, sock.begun);
      }
    } else {
      r := SOCK_OK;
    }
  }

  lemma NoFlags()
    ensures And(0, SF_NONBLOCK) == 0
  {
  }

  // ----- Runs

  /** A healthy stream socket is blocking and has sent back everything it took. */
  ghost predicate Echoing(sock: S.Socket)
    reads sock, sock.dev, sock.clock
  {
    sock.Valid() && (sock.s.health.Healthy? && Tcp(sock.s.mode) ==> !sock.s.nonblocking && Echoed(sock.dev.c))
  }

  lemma ServedEchoes(a: Chip, b: Chip)
    requires Echoed(a) && Served(a, b, true)
    ensures Echoed(b)
  {
    var n: nat, k: nat :| Relayed(a, b, n, k) && k == n;
    EchoedRelays(a, b, n);
  }

  /** Echo faithfulness: over any number of calls, on a socket with a transmit buffer and up to the
      first error, everything sent on the current connection is everything taken on it, in order. */
  method Serve(sock: S.Socket, buf: array<byte>, port: word, calls: nat) returns (r: int)
    requires Echoing(sock) && sock.txMax > 0 && buf.Length >= DATA_BUF_SIZE
    modifies sock`s, sock`history, sock`locks, sock`inSync, sock`begun, sock`anyPort, sock.dev, sock.clock, buf
    ensures sock.Valid() && (r >= 0 ==> Echoing(sock))
  {
    hide ChipOk, Recorded, Logged, Linked, Quiet, Served, Tcp;
    r := 0;
    var done := 0;
    while done < calls
      invariant Echoing(sock) && r >= 0
    {
      ghost var before := sock.dev.c;
      r := LoopbackTcps(sock, buf, port);
      if r < 0 {
        return;
      }
      if Echoed(before) && Served(before, sock.dev.c, true) {
        ServedEchoes(before, sock.dev.c);
      }
      done := done + 1;
    }
  }
}

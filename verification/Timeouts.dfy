/**
 The operation timeout of Ethernet/wizchip_conf.c: never below the time the chip needs for all
 its retransmissions, yet remembering what was asked for.
 */
module Timeouts {
  import opened Bytes

  const RETRY_MARGIN := 100000
  const DEFAULT_OPERATION := 2000000
  const UINT32_MAX := 0xFFFF_FFFF
  const RTR_MIN := 1
  const RCR_MIN := 1

  type uint32 = n: int | 0 <= n <= UINT32_MAX

  /** Time in microseconds for the chip to give up: RTR counts units of 100 microseconds. */
  function RetryWindow(rtr: word, rcr: byte): nat {
    100 * rtr * (rcr + 1) + RETRY_MARGIN
  }

  lemma WindowFits(rtr: word, rcr: byte)
    ensures 0 <= 100 * rtr * (rcr + 1) && RetryWindow(rtr, rcr) < UINT32_MAX
  {
    assert rtr * (rcr + 1) <= 0xFFFF * 0x100 by {
      Product(rtr, 0xFFFF, rcr + 1, 0x100);
    }
    assert 100 * rtr * (rcr + 1) == 100 * (rtr * (rcr + 1));
  }

  lemma Product(a: nat, a': nat, b: nat, b': nat)
    requires a <= a' && b <= b'
    ensures 0 <= a * b <= a' * b'
  {
    assert a * b <= a' * b;
    assert a' * b <= a' * b';
  }

  /** A setter call. */
  datatype Setter =
    | SetOperation(us: uint32)
    | SetConfig(command: uint32, operation: uint32, phy: uint32)
    | SetRetry(rtr: word, rcr: byte)
    | SetGeneric(us: uint32)

  datatype Config = Config(command: uint32, operation: uint32, phy: uint32)

  datatype State = State(config: Config, requested: uint32, configured: uint32, rtr: word, rcr: byte)

  /** wizchip_update_timeout_floor_locked, clamp included. */
  function Floored(s: State, rtr: word, rcr: byte): State {
    WindowFits(rtr, rcr);
    var window := Min(RetryWindow(rtr, rcr), UINT32_MAX);
    var operation := if s.requested < window then window else s.requested;
    s.(config := s.config.(operation := operation), configured := operation)
  }

  function Apply(s: State, call: Setter): State {
    match call
    case SetOperation(us) =>
      if us == 0 then s else Floored(s.(requested := us), s.rtr, s.rcr)
    case SetConfig(command, operation, phy) =>
      if command == 0 || operation == 0 || phy == 0 then s
      else Floored(s.(config := Config(command, operation, phy), requested := operation), s.rtr, s.rcr)
    case SetRetry(rtr, rcr) =>
      var rtr', rcr' := Max(rtr, RTR_MIN), Max(rcr, RCR_MIN);
      Floored(s.(rtr := rtr', rcr := rcr'), rtr', rcr')
    case SetGeneric(us) =>
      if us == 0 then s else s.(configured := us)
  }

  /** The statics and the two chip registers, with the setters that update them. */
  class TimeoutConfig {
    var config: Config
    var requested: uint32
    var configured: uint32
    var rtr: word
    var rcr: byte

    function View(): State
      reads this
    {
      State(config, requested, configured, rtr, rcr)
    }

    constructor (rtr: word, rcr: byte)
      ensures View() == State(Config(10000, DEFAULT_OPERATION, 10000), DEFAULT_OPERATION, 0, rtr, rcr)
    {
      config, requested := Config(10000, DEFAULT_OPERATION, 10000), DEFAULT_OPERATION;
      configured := 0;
      this.rtr, this.rcr := rtr, rcr;
    }

    method UpdateFloor(r: word, c: byte)
      modifies this`config, this`configured
      ensures View() == Floored(old(View()), r, c)
    {
      WindowFits(r, c);
      var window: int := r * 100 * (c + 1) + RETRY_MARGIN;
      if window > UINT32_MAX {
        window := UINT32_MAX;
      }
      config := config.(operation := requested);
      if config.operation < window {
        config := config.(operation := window);
      }
      configured := config.operation;
    }

    method SetOperationTimeout(us: uint32) returns (r: int)
      modifies this
      ensures View() == Apply(old(View()), SetOperation(us)) && (r == 0 <==> us != 0)
    {
      if us == 0 {
        return -1;
      }
      var t, c := rtr, rcr;
      requested := us;
      UpdateFloor(t, c);
      return 0;
    }

    method SetTimeoutConfig(c: Config) returns (r: int)
      modifies this
      ensures View() == Apply(old(View()), SetConfig(c.command, c.operation, c.phy))
      ensures r == 0 <==> c.command != 0 && c.operation != 0 && c.phy != 0
    {
      if c.command == 0 || c.operation == 0 || c.phy == 0 {
        return -1;
      }
      var t, n := rtr, rcr;
      config := c;
      requested := c.operation;
      UpdateFloor(t, n);
      return 0;
    }

    method SetNetTimeout(retryCount: byte, time100us: word)
      modifies this
      ensures View() == Apply(old(View()), SetRetry(time100us, retryCount))
    {
      var n, t := retryCount, time100us;
      if n < RCR_MIN {
        n := RCR_MIN;
      }
      if t < RTR_MIN {
        t := RTR_MIN;
      }
      rtr := t;
      rcr := n;
      UpdateFloor(t, n);
    }

    method TimeoutConfigSet(us: uint32) returns (r: int)
      modifies this
      ensures View() == Apply(old(View()), SetGeneric(us)) && (r == 0 <==> us != 0)
    {
      if us == 0 {
        return 1;
      }
      configured := us;
      return 0;
    }
  }

  // ----- Runs of setters

  function ApplyAll(s: State, sets: seq<Setter>): State {
    if sets == [] then s else Apply(ApplyAll(s, sets[..|sets| - 1]), sets[|sets| - 1])
  }

  /** The operation timeout a setter call asks for, if it asks for an acceptable one. */
  function Asked(call: Setter): Option<uint32> {
    match call
    case SetOperation(us) => if us == 0 then None else Some(us)
    case SetConfig(command, operation, phy) =>
      if command == 0 || operation == 0 || phy == 0 then None else Some(operation)
    case _ => None
  }

  function LastAsked(sets: seq<Setter>, initial: uint32): uint32 {
    if sets == [] then initial
    else match Asked(sets[|sets| - 1])
      case Some(us) => us
      case None => LastAsked(sets[..|sets| - 1], initial)
  }

  /** The retry registers the last retry setter left. */
  function LastRetry(sets: seq<Setter>, initial: (word, byte)): (word, byte) {
    if sets == [] then initial
    else if sets[|sets| - 1].SetRetry? then
      (Max(sets[|sets| - 1].rtr, RTR_MIN), Max(sets[|sets| - 1].rcr, RCR_MIN))
    else LastRetry(sets[..|sets| - 1], initial)
  }

  /** A call that recomputes the floor. */
  predicate Recomputes(call: Setter) {
    Asked(call).Some? || call.SetRetry?
  }

  /** After any sequence of setters, at least one of which had an effect, the operation timeout is
      the larger of the last request and the retry window of the registers in force.  So the
      32-bit clamp never acts, no request is forgotten, and lowering the retry registers brings a
      smaller request back. */
  lemma {:induction false} OperationTimeout(s: State, sets: seq<Setter>)
    ensures ApplyAll(s, sets).requested == LastAsked(sets, s.requested)
    ensures (ApplyAll(s, sets).rtr, ApplyAll(s, sets).rcr) == LastRetry(sets, (s.rtr, s.rcr))
    ensures (exists i :: 0 <= i < |sets| && Recomputes(sets[i])) ==>
              var (rtr, rcr) := LastRetry(sets, (s.rtr, s.rcr));
              ApplyAll(s, sets).config.operation == Max(LastAsked(sets, s.requested), RetryWindow(rtr, rcr))
    decreases |sets|
  {
    if sets != [] {
      var before, last := sets[..|sets| - 1], sets[|sets| - 1];
      OperationTimeout(s, before);
      var b := ApplyAll(s, before);
      WindowFits(b.rtr, b.rcr);
      if last.SetRetry? {
        WindowFits(Max(last.rtr, RTR_MIN), Max(last.rcr, RCR_MIN));
      }
      if !Recomputes(last) && exists i :: 0 <= i < |sets| && Recomputes(sets[i]) {
        var i :| 0 <= i < |sets| && Recomputes(sets[i]);
        assert Recomputes(before[i]);
      }
    }
  }

  /** A software reset of the chip restores the retry registers behind the library's back. */
  function AfterChipReset(s: State, rtr: word, rcr: byte): State {
    s.(rtr := rtr, rcr := rcr)
  }

  /** The reset does not recompute the timeout in force.  It is still the greater of the request and
      the retry window exactly if the window has not changed, or if neither the window before nor the
      one after exceeds the request. */
  lemma ResetKeepsFloor(s: State, rtr: word, rcr: byte)
    requires s.config.operation == Max(s.requested, RetryWindow(s.rtr, s.rcr))
    ensures AfterChipReset(s, rtr, rcr).config.operation == Max(s.requested, RetryWindow(rtr, rcr))
        <==> RetryWindow(s.rtr, s.rcr) == RetryWindow(rtr, rcr)
             || (RetryWindow(s.rtr, s.rcr) <= s.requested && RetryWindow(rtr, rcr) <= s.requested)
  {
  }
}

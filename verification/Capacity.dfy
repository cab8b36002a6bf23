/**
 Chip initialisation and buffer sizes of the W5500 build (Ethernet/wizchip_conf.c and
 Ethernet/W5500/w5500.c): the cached capacities agree with the size registers.
 */
module Capacity {
  import opened Bytes
  import opened Codes
  import opened Locks
  import S = SocketState

  const LIMIT_KB := 16
  /** Every buffer is 2 KB after the chip resets. */
  const RESET_KB := 2
  const VERSION := 4

  datatype ChipState = Uninit | Ready | Faulted

  /** Sizes the W5500 accepts, in KB. */
  predicate ValidSize(kb: byte) {
    kb == 0 || kb == 2 || kb == 4 || kb == 8 || kb == 16
  }

  function Sum(sizes: seq<byte>): nat {
    if sizes == [] then 0 else Sum(sizes[..|sizes| - 1]) + sizes[|sizes| - 1]
  }

  /** An array argument of wizchip_init is accepted: valid sizes, at most 16 KB in all. */
  predicate Acceptable(sizes: seq<byte>) {
    (forall i :: 0 <= i < |sizes| ==> ValidSize(sizes[i])) && Sum(sizes) <= LIMIT_KB
  }

  lemma {:induction false} PrefixSum(sizes: seq<byte>, n: nat)
    requires n <= |sizes|
    ensures Sum(sizes[..n]) <= Sum(sizes)
    decreases |sizes|
  {
    if n < |sizes| {
      assert sizes[..|sizes| - 1][..n] == sizes[..n];
      PrefixSum(sizes[..|sizes| - 1], n);
    } else {
      assert sizes[..n] == sizes;
    }
  }

  function Kilobytes(kb: int): int {
    1024 * kb
  }

  /** Every cached capacity is 1024 times its register. */
  predicate Agrees(cache: seq<word>, register: seq<byte>) {
    |cache| == |register| == SOCKETS && forall i :: 0 <= i < SOCKETS ==> cache[i] == Kilobytes(register[i])
  }

  /** Every buffer as the chip leaves it after a reset. */
  function ResetSizes(): (sizes: seq<byte>)
    ensures |sizes| == SOCKETS && forall i :: 0 <= i < SOCKETS ==> sizes[i] == RESET_KB
  {
    seq(SOCKETS, _ => RESET_KB)
  }

  /** The statics of every socket number as the program starts. */
  function AllFresh(): (all: seq<S.Statics>)
    ensures |all| == SOCKETS && forall i :: 0 <= i < SOCKETS ==> all[i] == S.FRESH
  {
    seq(SOCKETS, _ => S.FRESH)
  }

  lemma UnlockShift(before: seq<Action>, n: nat)
    ensures before + UnlockAll(n + 1) == before + [Release(n)] + UnlockAll(n)
  {
    var rest := UnlockAll(n);
    assert UnlockAll(n + 1) == [Release(n)] + rest;
    hide UnlockAll;
    assert before + ([Release(n)] + rest) == before + [Release(n)] + rest;
  }

  lemma UnlockNone()
    ensures UnlockAll(0) == []
  {
  }

  lemma LockThenUnlock(before: seq<Action>)
    ensures before + LockAll(LOCKS) + UnlockAll(LOCKS) == before + Transaction()
  {
    hide LockAll, UnlockAll;
  }

  /** The chip behind a bus on which any checked access may fail. */
  class Driver {
    var txReg: seq<byte>
    var rxReg: seq<byte>
    var txCache: seq<word>
    var rxCache: seq<word>
    var statics: seq<S.Statics>
    var chip: ChipState
    var lastError: int
    var held: set<nat>
    ghost var actions: seq<Action>

    ghost predicate Valid()
      reads this
    {
      |txReg| == |rxReg| == |txCache| == |rxCache| == |statics| == SOCKETS
    }

    // ----- Locks

    method Lock(l: nat)
      requires forall h :: h in held ==> h < l
      modifies this`held, this`actions
      ensures held == old(held) + {l} && actions == old(actions) + [Acquire(l)]
    {
      held, actions := held + {l}, actions + [Acquire(l)];
    }

    method Unlock(l: nat)
      requires l in held
      modifies this`held, this`actions
      ensures held == old(held) - {l} && actions == old(actions) + [Release(l)]
    {
      held, actions := held - {l}, actions + [Release(l)];
    }

    method TransactionLock()
      requires held == {}
      modifies this`held, this`actions
      ensures held == Below(LOCKS) && actions == old(actions) + LockAll(LOCKS)
    {
      Lock(GLOBAL);
      assert actions == old(actions) + LockAll(1);
      var sn := 0;
      while sn < SOCKETS
        invariant 0 <= sn <= SOCKETS
        invariant held == Below(sn + 1) && actions == old(actions) + LockAll(sn + 1)
      {
        Lock(SocketLock(sn));
        sn := sn + 1;
      }
    }

    method TransactionUnlock()
      requires held == Below(LOCKS)
      modifies this`held, this`actions
      ensures held == {} && actions == old(actions) + UnlockAll(LOCKS)
    {
      hide UnlockAll;
      assert UnlockAll(0) == [] by { UnlockNone(); }
      var sn := SOCKETS;
      while sn != 0
        invariant 0 <= sn <= SOCKETS
        invariant held == Below(sn + 1)
        invariant actions + UnlockAll(sn + 1) == old(actions) + UnlockAll(LOCKS)
      {
        sn := sn - 1;
        UnlockShift(actions, sn + 1);
        Unlock(SocketLock(sn));
        assert Below(sn + 2) - {sn + 1} == Below(sn + 1);
      }
      UnlockShift(actions, 0);
      Unlock(GLOBAL);
      assert actions + UnlockAll(0) == actions;
    }

    // ----- Checked accesses

    /** A read of a size register or another one: the value, or a failure. */
    method BusOk() returns (ok: bool)
      modifies this`chip, this`lastError
      ensures ok ==> chip == old(chip) && lastError == old(lastError)
      ensures !ok ==> chip == Faulted && lastError == SOCKERR_IO
    {
      ok := *;
      if !ok {
        chip, lastError := Faulted, SOCKERR_IO;
      }
    }

    /** A failed write may or may not have reached the register. */
    method WriteTx(sn: nat, kb: byte) returns (ok: bool)
      requires Valid() && sn < SOCKETS
      modifies this`chip, this`lastError, this`txReg
      ensures Valid()
      ensures txReg == old(txReg)[sn := kb] || (!ok && txReg == old(txReg))
      ensures ok ==> chip == old(chip) && lastError == old(lastError)
    {
      ok := BusOk();
      var reached := *;
      if ok || reached {
        txReg := txReg[sn := kb];
      }
    }

    method WriteRx(sn: nat, kb: byte) returns (ok: bool)
      requires Valid() && sn < SOCKETS
      modifies this`chip, this`lastError, this`rxReg
      ensures Valid()
      ensures rxReg == old(rxReg)[sn := kb] || (!ok && rxReg == old(rxReg))
      ensures ok ==> chip == old(chip) && lastError == old(lastError)
    {
      ok := BusOk();
      var reached := *;
      if ok || reached {
        rxReg := rxReg[sn := kb];
      }
    }

    // ----- Transactions

    method ResetSocketState()
      requires Valid()
      modifies this`txCache, this`rxCache, this`statics
      ensures Valid() && txCache == rxCache == seq(SOCKETS, _ => 0) && statics == AllFresh()
    {
      var sn := 0;
      while sn < SOCKETS
        invariant 0 <= sn <= SOCKETS && Valid()
        invariant forall i :: 0 <= i < sn ==> txCache[i] == 0 && rxCache[i] == 0 && statics[i] == S.FRESH
      {
        txCache, rxCache, statics := txCache[sn := 0], rxCache[sn := 0], statics[sn := S.FRESH];
        sn := sn + 1;
      }
    }

    /** Saves the addresses, resets, restores them, and waits for the version register. */
    method ResetChip() returns (r: int)
      requires Valid()
      modifies this`chip, this`lastError, this`txReg, this`rxReg
      ensures Valid()
      ensures r == 0 ==> txReg == rxReg == ResetSizes()
      ensures r == 0 ==> chip == old(chip) && lastError == old(lastError)
    {
      var ok := BusOk();
      if !ok {
        return SOCKERR_IO;
      }
      txReg, rxReg := ResetSizes(), ResetSizes();
      ok := BusOk();
      if !ok {
        return SOCKERR_IO;
      }
      var polls := 0;
      r := -1;
      while r != 0 && polls < POLL_MAX
        invariant 0 <= polls <= POLL_MAX && (r == 0 || r == -1)
        invariant chip == old(chip) && lastError == old(lastError)
        invariant txReg == rxReg == ResetSizes()
        decreases POLL_MAX - polls, if r != 0 then 1 else 0
      {
        ok := BusOk();
        if !ok {
          return SOCKERR_IO;
        }
        var version: byte := *;
        r := if version == VERSION then 0 else -1;
        if r != 0 {
          polls := polls + 1;
        }
      }
    }

    /** wizchip_refresh_socket_caches. */
    method RefreshCaches() returns (r: int)
      requires Valid()
      modifies this`chip, this`lastError, this`txCache, this`rxCache
      ensures Valid()
      ensures r == 0 ==> forall i :: 0 <= i < SOCKETS ==>
                           txCache[i] == Wrap(Kilobytes(txReg[i])) && rxCache[i] == Wrap(Kilobytes(rxReg[i]))
      ensures r == 0 ==> chip == old(chip) && lastError == old(lastError)
    {
      var sn := 0;
      while sn < SOCKETS
        invariant 0 <= sn <= SOCKETS && Valid()
        invariant forall i :: 0 <= i < sn ==>
                    txCache[i] == Wrap(Kilobytes(txReg[i])) && rxCache[i] == Wrap(Kilobytes(rxReg[i]))
        invariant chip == old(chip) && lastError == old(lastError)
      {
        var ok := BusOk();
        if !ok {
          return SOCKERR_IO;
        }
        txCache := txCache[sn := Wrap(Kilobytes(txReg[sn]))];
        rxCache := rxCache[sn := Wrap(Kilobytes(rxReg[sn]))];
        sn := sn + 1;
      }
      return 0;
    }

    method Finish(r: int)
      requires held == Below(LOCKS)
      modifies this`held, this`actions, this`chip, this`lastError
      ensures held == {} && actions == old(actions) + UnlockAll(LOCKS)
      ensures if r == 0 then chip == Ready && lastError == 0
              else chip == Faulted && lastError != 0
    {
      TransactionUnlock();
      if r == 0 {
        chip, lastError := Ready, 0;
      } else {
        chip := Faulted;
        if lastError == 0 {
          lastError := r;
        }
      }
    }

    method SoftwareReset() returns (r: int)
      requires Valid() && held == {}
      modifies this
      ensures Valid() && held == {} && actions == old(actions) + Transaction() && statics == AllFresh()
      ensures r == 0 ==> chip == Ready && Agrees(txCache, txReg) && Agrees(rxCache, rxReg)
                         && txReg == rxReg == ResetSizes()
      ensures r != 0 ==> chip == Faulted && lastError != 0
    {
      hide LockAll, UnlockAll, Transaction;
      TransactionLock();
      chip, lastError := Uninit, 0;
      ResetSocketState();
      r := ResetChip();
      if r == 0 {
        r := RefreshCaches();
      }
      Finish(r);
      LockThenUnlock(old(actions));
    }

    /** The validation loop over one array argument. */
    method Validate(sizes: seq<byte>) returns (ok: bool)
      ensures ok <==> Acceptable(sizes)
    {
      var total := 0;
      var i := 0;
      while i < |sizes|
        invariant 0 <= i <= |sizes| && total == Sum(sizes[..i]) && total <= LIMIT_KB
        invariant forall j :: 0 <= j < i ==> ValidSize(sizes[j])
      {
        if sizes[i] != 0 && sizes[i] != 2 && sizes[i] != 4 && sizes[i] != 8 && sizes[i] != 16 {
          return false;
        }
        assert sizes[..i + 1][..i] == sizes[..i];
        total := total + sizes[i];
        if total > LIMIT_KB {
          PrefixSum(sizes, i + 1);
          return false;
        }
        i := i + 1;
      }
      assert sizes[..i] == sizes;
      return true;
    }

    method WriteSizes(txsize: seq<byte>, rxsize: seq<byte>, tx: bool, rx: bool) returns (r: int)
      requires Valid() && |txsize| == |rxsize| == SOCKETS
      requires forall i :: 0 <= i < SOCKETS ==> ValidSize(txsize[i]) && ValidSize(rxsize[i])
      modifies this`chip, this`lastError, this`txReg, this`rxReg, this`txCache, this`rxCache
      ensures Valid()
      ensures r == 0 ==> chip == old(chip) && lastError == old(lastError)
      ensures r == 0 && tx ==> txReg == txsize && Agrees(txCache, txReg)
      ensures r == 0 && rx ==> rxReg == rxsize && Agrees(rxCache, rxReg)
      ensures !tx ==> txReg == old(txReg) && txCache == old(txCache)
      ensures !rx ==> rxReg == old(rxReg) && rxCache == old(rxCache)
    {
      if tx {
        var i := 0;
        while i < SOCKETS
          invariant 0 <= i <= SOCKETS && Valid()
          invariant forall j :: 0 <= j < i ==> txReg[j] == txsize[j] && txCache[j] == Kilobytes(txsize[j])
          invariant chip == old(chip) && lastError == old(lastError)
          invariant rxReg == old(rxReg) && rxCache == old(rxCache)
        {
          var ok := WriteTx(i, txsize[i]);
          if !ok {
            return SOCKERR_IO;
          }
          txCache := txCache[i := Kilobytes(txsize[i])];
          i := i + 1;
        }
      }
      if rx {
        ghost var reg, cache := txReg, txCache;
        var i := 0;
        while i < SOCKETS
          invariant 0 <= i <= SOCKETS && Valid()
          invariant forall j :: 0 <= j < i ==> rxReg[j] == rxsize[j] && rxCache[j] == Kilobytes(rxsize[j])
          invariant chip == old(chip) && lastError == old(lastError)
          invariant txReg == reg && txCache == cache
        {
          var ok := WriteRx(i, rxsize[i]);
          if !ok {
            return SOCKERR_IO;
          }
          rxCache := rxCache[i := Kilobytes(rxsize[i])];
          i := i + 1;
        }
      }
      return 0;
    }

    /** wizchip_init; None stands for a null array.  Unacceptable arrays are refused before
        anything is touched.  Otherwise the call is one transaction: any failure inside it leaves
        the chip faulted, success leaves it ready, and either way every lock is released.  After
        success a direction's capacities agree with its registers exactly when its array was given:
        without it the registers keep their reset value while the capacities stay zero. */
    method Init(txsize: Option<seq<byte>>, rxsize: Option<seq<byte>>) returns (r: int)
      requires Valid() && held == {}
      requires txsize.Some? ==> |txsize.value| == SOCKETS
      requires rxsize.Some? ==> |rxsize.value| == SOCKETS
      modifies this
      ensures Valid() && held == {}
      ensures var refused := (txsize.Some? && !Acceptable(txsize.value)) || (rxsize.Some? && !Acceptable(rxsize.value));
              if refused then
                r == -1 && txReg == old(txReg) && rxReg == old(rxReg) && txCache == old(txCache)
                && rxCache == old(rxCache) && chip == old(chip) && actions == old(actions) && statics == old(statics)
              else
                actions == old(actions) + Transaction() && statics == AllFresh()
                && (r == 0 ==> chip == Ready) && (r != 0 ==> chip == Faulted && lastError != 0)
      ensures r == 0 ==> (Agrees(txCache, txReg) <==> txsize.Some?) && (Agrees(rxCache, rxReg) <==> rxsize.Some?)
      ensures r == 0 && txsize.Some? ==> Acceptable(txsize.value) && txReg == txsize.value
      ensures r == 0 && rxsize.Some? ==> Acceptable(rxsize.value) && rxReg == rxsize.value
    {
      if txsize.Some? {
        var ok := Validate(txsize.value);
        if !ok {
          return -1;
        }
      }
      if rxsize.Some? {
        var ok := Validate(rxsize.value);
        if !ok {
          return -1;
        }
      }
      r := Configure(txsize, rxsize);
    }

    /** The transaction of wizchip_init. */
    method Configure(txsize: Option<seq<byte>>, rxsize: Option<seq<byte>>) returns (r: int)
      requires Valid() && held == {}
      requires txsize.Some? ==> |txsize.value| == SOCKETS && Acceptable(txsize.value)
      requires rxsize.Some? ==> |rxsize.value| == SOCKETS && Acceptable(rxsize.value)
      modifies this
      ensures Valid() && held == {} && actions == old(actions) + Transaction() && statics == AllFresh()
      ensures (r == 0 ==> chip == Ready) && (r != 0 ==> chip == Faulted && lastError != 0)
      ensures r == 0 ==> (Agrees(txCache, txReg) <==> txsize.Some?) && (Agrees(rxCache, rxReg) <==> rxsize.Some?)
      ensures r == 0 && txsize.Some? ==> txReg == txsize.value
      ensures r == 0 && rxsize.Some? ==> rxReg == rxsize.value
    {
      TransactionLock();
      chip, lastError := Uninit, 0;
      ResetSocketState();
      r := ResetChip();
      if r == 0 {
        r := WriteSizes(if txsize.Some? then txsize.value else ResetSizes(),
                        if rxsize.Some? then rxsize.value else ResetSizes(), txsize.Some?, rxsize.Some?);
      }
      if r == 0 {
        r := Identify();
      }
      assert r == 0 && txsize.None? ==> txCache[0] != Kilobytes(txReg[0]);
      assert r == 0 && rxsize.None? ==> rxCache[0] != Kilobytes(rxReg[0]);
      Finish(r);
      LockThenUnlock(old(actions));
    }

    /** The version register once more, then the PHY register. */
    method Identify() returns (r: int)
      modifies this`chip, this`lastError
      ensures r == 0 ==> chip == old(chip) && lastError == old(lastError)
    {
      var ok := BusOk();
      if !ok {
        return SOCKERR_IO;
      }
      var version: byte := *;
      if version != VERSION {
        return -1;
      }
      ok := BusOk();
      if !ok {
        return SOCKERR_IO;
      }
      return 0;
    }

    /** wizchip_set_tx_buf_size: the capacity follows the register only after a read-back.  From
        agreement, a call that fails loses it exactly if its write has changed the register. */
    method SetTxSize(sn: nat, kb: byte) returns (r: int)
      requires Valid() && held == {}
      modifies this
      ensures Valid() && held == {} && rxReg == old(rxReg) && rxCache == old(rxCache) && statics == old(statics)
      ensures r == 0 ==> sn < SOCKETS && ValidSize(kb) && txReg == old(txReg)[sn := kb]
                         && txCache == old(txCache)[sn := Kilobytes(kb)]
      ensures r != 0 ==> txCache == old(txCache)
      ensures Agrees(old(txCache), old(txReg)) ==> (Agrees(txCache, txReg) <==> r == 0 || txReg == old(txReg))
      ensures txReg == old(txReg) || (sn < SOCKETS && ValidSize(kb) && txReg == old(txReg)[sn := kb])
      ensures sn < SOCKETS && ValidSize(kb) ==> actions == old(actions) + Configuration()
    {
      if sn >= SOCKETS || !ValidSize(kb) {
        return -1;
      }
      Lock(GLOBAL);
      r := 0;
      var ok := WriteTx(sn, kb);
      if !ok {
        r := SOCKERR_IO;
      } else {
        ok := BusOk();
        if !ok {
          r := SOCKERR_IO;
        } else if txReg[sn] != kb {
          r := -1;
        }
      }
      if r == 0 {
        txCache := txCache[sn := Kilobytes(kb)];
      }
      Unlock(GLOBAL);
      assert old(actions) + [Acquire(GLOBAL)] + [Release(GLOBAL)] == old(actions) + Configuration();
    }

    method SetRxSize(sn: nat, kb: byte) returns (r: int)
      requires Valid() && held == {}
      modifies this
      ensures Valid() && held == {} && txReg == old(txReg) && txCache == old(txCache) && statics == old(statics)
      ensures r == 0 ==> sn < SOCKETS && ValidSize(kb) && rxReg == old(rxReg)[sn := kb]
                         && rxCache == old(rxCache)[sn := Kilobytes(kb)]
      ensures r != 0 ==> rxCache == old(rxCache)
      ensures Agrees(old(rxCache), old(rxReg)) ==> (Agrees(rxCache, rxReg) <==> r == 0 || rxReg == old(rxReg))
      ensures rxReg == old(rxReg) || (sn < SOCKETS && ValidSize(kb) && rxReg == old(rxReg)[sn := kb])
      ensures sn < SOCKETS && ValidSize(kb) ==> actions == old(actions) + Configuration()
    {
      if sn >= SOCKETS || !ValidSize(kb) {
        return -1;
      }
      Lock(GLOBAL);
      r := 0;
      var ok := WriteRx(sn, kb);
      if !ok {
        r := SOCKERR_IO;
      } else {
        ok := BusOk();
        if !ok {
          r := SOCKERR_IO;
        } else if rxReg[sn] != kb {
          r := -1;
        }
      }
      if r == 0 {
        rxCache := rxCache[sn := Kilobytes(kb)];
      }
      Unlock(GLOBAL);
      assert old(actions) + [Acquire(GLOBAL)] + [Release(GLOBAL)] == old(actions) + Configuration();
    }

    /** Any run of such calls, up to the first failure.  However the sizes are changed, and however
        often, the capacities agree with the registers once an initialisation with both arrays, or a
        software reset, has come first. */
    method Reconfigure(requests: seq<Request>) returns (r: int)
      requires Valid() && held == {} && forall i :: 0 <= i < |requests| ==> WellSized(requests[i])
      modifies this
      ensures Valid() && held == {}
      ensures r == 0 && (old(InAgreement()) || (requests != [] && !requests[0].TxSize? && !requests[0].RxSize?)) ==>
                InAgreement()
    {
      r := 0;
      var i := 0;
      while i < |requests|
        invariant 0 <= i <= |requests| && Valid() && held == {} && r == 0
        invariant old(InAgreement()) || (i > 0 && !requests[0].TxSize? && !requests[0].RxSize?) ==> InAgreement()
      {
        match requests[i] {
          case Initialise(tx, rx) => r := Init(Some(tx), Some(rx));
          case Restart => r := SoftwareReset();
          case TxSize(sn, kb) => r := SetTxSize(sn, kb);
          case RxSize(sn, kb) => r := SetRxSize(sn, kb);
        }
        if r != 0 {
          return;
        }
        i := i + 1;
      }
    }

    predicate InAgreement()
      reads this
    {
      Agrees(txCache, txReg) && Agrees(rxCache, rxReg)
    }
  }

  datatype Request =
    | Initialise(tx: seq<byte>, rx: seq<byte>)
    | Restart
    | TxSize(sn: nat, kb: byte)
    | RxSize(sn: nat, kb: byte)

  /** The arrays have one entry per socket. */
  predicate WellSized(request: Request) {
    request.Initialise? ==> |request.tx| == |request.rx| == SOCKETS
  }
}

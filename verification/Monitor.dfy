/**
 What must be true of the history of one socket, stated on the history itself.  The socket class
 records the events; this module says what a good history is and what follows from it.
 */
module Monitor {
  import opened Bytes
  import opened Chip
  import opened Codes

  datatype Event =
    | Command(code: byte)   // Sn_CR written
    | Copied(n: nat)        // payload copied to the transmit buffer
    | Fault                 // health set to FAULTED
    | Reset                 // sock_state_reset
    | Accepted(len: nat)    // a SEND of sendto was accepted by the chip
    | Outcome(ret: int, end: SendEnd) // a sendto call reported how an accepted SEND ended

  datatype Watch = Watch(ok: bool, faulted: bool, pending: Option<nat>, accepted: nat, reported: nat)

  /** One event.  A command while faulted, a copy or a SEND while a datagram is pending, a second
      acceptance, or an outcome that is not owed or does not report what happened, spoils the history. */
  function Next(w: Watch, e: Event): Watch {
    match e
    case Command(code) => w.(ok := w.ok && !w.faulted && (code == CR_SEND ==> w.pending.None?))
    case Copied(_) => w.(ok := w.ok && w.pending.None?)
    case Fault => w.(faulted := true)
    case Reset => Watch(w.ok, false, None, 0, 0)
    case Accepted(len) => w.(ok := w.ok && w.pending.None?, pending := Some(len), accepted := w.accepted + 1)
    case Outcome(ret, end) =>
      w.(ok := w.ok && w.pending.Some? && ReportsEnd(ret, end, w.pending.value, w.faulted),
         pending := None, reported := w.reported + 1)
  }

  /** A success is reported as the accepted length, a timeout of the SEND as a timeout; a SEND is
      given up, which reads as a timeout too, only on a socket already faulted. */
  predicate ReportsEnd(ret: int, end: SendEnd, len: nat, faulted: bool) {
    match end
    case Succeeded => ret == len
    case TimedOut => ret == SOCKERR_TIMEOUT
    case Abandoned => ret == SOCKERR_TIMEOUT && faulted
  }

  /** The commands of a history. */
  function Commands(history: seq<Event>): seq<byte> {
    if history == [] then []
    else
      var last := history[|history| - 1];
      Commands(history[..|history| - 1]) + if last.Command? then [last.code] else []
  }

  lemma CommandsAppend(history: seq<Event>, e: Event)
    ensures Commands(history + [e]) == Commands(history) + if e.Command? then [e.code] else []
  {
    assert (history + [e])[..|history|] == history;
  }

  function Run(history: seq<Event>): Watch {
    if history == [] then Watch(true, false, None, 0, 0)
    else Next(Run(history[..|history| - 1]), history[|history| - 1])
  }

  lemma RunAppend(history: seq<Event>, e: Event)
    ensures Run(history + [e]) == Next(Run(history), e)
  {
    assert (history + [e])[..|history|] == history;
  }

  // ----- What a good history means

  lemma {:induction false} OkPrefix(history: seq<Event>, i: nat)
    requires i <= |history| && Run(history).ok
    ensures Run(history[..i]).ok
    decreases |history|
  {
    if i < |history| {
      var shorter := history[..|history| - 1];
      OkPrefix(shorter, i);
      assert shorter[..i] == history[..i];
    } else {
      assert history[..i] == history;
    }
  }

  /** Some fault was recorded before position i, with no reset in between. */
  predicate FaultedAt(history: seq<Event>, i: nat)
    requires i <= |history|
  {
    exists j :: 0 <= j < i && history[j] == Fault && forall k :: j < k < i ==> history[k] != Reset
  }

  lemma {:induction false} FaultedMeans(history: seq<Event>)
    ensures Run(history).faulted <==> FaultedAt(history, |history|)
    decreases |history|
  {
    if history != [] {
      var n := |history| - 1;
      var shorter := history[..n];
      FaultedMeans(shorter);
      if FaultedAt(history, n + 1) && history[n] != Fault {
        var j :| 0 <= j < n + 1 && history[j] == Fault && forall k :: j < k < n + 1 ==> history[k] != Reset;
        assert shorter[j] == Fault && forall k :: j < k < n ==> shorter[k] != Reset;
      }
      if FaultedAt(shorter, n) && history[n] != Reset {
        var j :| 0 <= j < n && shorter[j] == Fault && forall k :: j < k < n ==> shorter[k] != Reset;
        assert history[j] == Fault && forall k :: j < k < n + 1 ==> history[k] != Reset by {
          assert forall k :: j < k < n ==> history[k] == shorter[k];
        }
      }
    }
  }

  /** Fault containment: no command is ever written to a faulted socket. */
  lemma NoCommandWhileFaulted(history: seq<Event>, i: nat)
    requires Run(history).ok && i < |history| && history[i].Command?
    ensures !FaultedAt(history, i)
  {
    OkPrefix(history, i + 1);
    var upto := history[..i];
    assert history[..i + 1] == upto + [history[i]];
    RunAppend(upto, history[i]);
    FaultedMeans(upto);
    FaultedUpTo(history, i);
  }

  lemma FaultedUpTo(history: seq<Event>, i: nat)
    requires i <= |history|
    ensures FaultedAt(history, i) ==> FaultedAt(history[..i], i)
  {
    if FaultedAt(history, i) {
      var j :| 0 <= j < i && history[j] == Fault && forall k :: j < k < i ==> history[k] != Reset;
      var upto := history[..i];
      assert upto[j] == Fault && forall k :: j < k < i ==> upto[k] != Reset;
    }
  }

  /** Acceptances since the last reset. */
  function AcceptedCount(history: seq<Event>): nat {
    if history == [] then 0
    else
      var last := history[|history| - 1];
      if last == Reset then 0
      else AcceptedCount(history[..|history| - 1]) + if last.Accepted? then 1 else 0
  }

  /** Reported outcomes since the last reset. */
  function OutcomeCount(history: seq<Event>): nat {
    if history == [] then 0
    else
      var last := history[|history| - 1];
      if last == Reset then 0
      else OutcomeCount(history[..|history| - 1]) + if last.Outcome? then 1 else 0
  }

  /** Length of the last acceptance since the last reset. */
  function LastAccepted(history: seq<Event>): Option<nat> {
    if history == [] then None
    else match history[|history| - 1]
      case Reset => None
      case Accepted(len) => Some(len)
      case _ => LastAccepted(history[..|history| - 1])
  }

  /** Send accounting: every accepted SEND is reported exactly once, except for the one pending. */
  lemma {:induction false} SendsAccounted(history: seq<Event>)
    requires Run(history).ok
    ensures AcceptedCount(history) == OutcomeCount(history) + if Run(history).pending.Some? then 1 else 0
    ensures Run(history).pending.Some? ==> LastAccepted(history) == Run(history).pending
    decreases |history|
  {
    if history != [] {
      OkPrefix(history, |history| - 1);
      SendsAccounted(history[..|history| - 1]);
    }
  }

  /** An outcome settles the one SEND not yet reported; it gives the length that was accepted if that
      SEND succeeded, whoever's call reports it, and a timeout if it timed out, or was given up on a
      socket by then faulted. */
  lemma OutcomeIsOwed(history: seq<Event>, i: nat)
    requires Run(history).ok && i < |history| && history[i].Outcome?
    ensures AcceptedCount(history[..i]) == OutcomeCount(history[..i]) + 1
    ensures match history[i].end
            case Succeeded => Some(history[i].ret) == LastAccepted(history[..i])
            case TimedOut => history[i].ret == SOCKERR_TIMEOUT
            case Abandoned => history[i].ret == SOCKERR_TIMEOUT && FaultedAt(history[..i], i)
  {
    OkPrefix(history, i + 1);
    var upto := history[..i];
    assert history[..i + 1] == upto + [history[i]];
    RunAppend(upto, history[i]);
    FaultedMeans(upto);
    SendsAccounted(upto);
  }

  /** While a datagram is pending nothing is copied, sent or accepted. */
  lemma NothingWhilePending(history: seq<Event>, i: nat)
    requires Run(history).ok && i < |history|
    requires AcceptedCount(history[..i]) != OutcomeCount(history[..i])
    ensures !history[i].Copied? && !history[i].Accepted? && history[i] != Command(CR_SEND)
  {
    OkPrefix(history, i + 1);
    var upto := history[..i];
    assert history[..i + 1] == upto + [history[i]];
    RunAppend(upto, history[i]);
    SendsAccounted(upto);
  }
}

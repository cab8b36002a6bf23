/**
 Threads racing in socket() on one socket number.  Each reads the status register once before it takes
 the lock and again under it; what it read first decides what it may do to a socket it then finds
 open.  Each step of a thread is one access of the call; between any two of them the chip may act, and
 other threads may move wherever the lock lets them.
 */
module OpenRace {
  import opened Bytes
  import opened Codes

  datatype Command = Open | Close

  /** Where a thread is in socket(); from Entering to Leaving it holds the lock. */
  datatype Place =
    | Outside            // has not read the status yet
    | Waiting            // has read it, wants the lock
    | Entering           // lock just taken
    | Removing           // in close_internal, before its look at the status
    | Closing            // CLOSE written, waiting for the command register to clear
    | Falling            // command accepted, waiting for the status CLOSED
    | Clear              // the socket is closed
    | Opening            // OPEN written, waiting for the command register to clear
    | Rising             // command accepted, waiting for the status of the protocol
    | Leaving(ret: int)  // result decided, lock still held
    | Done(ret: int)

  /** What the status register showed before the lock. */
  datatype Saw = Unread | SawClosed | SawOther

  /** One socket: what the status register shows (closed or not), the command not accepted yet, the
      status the last accepted one leads to, the driver's health flag, the lock, the threads, and
      every command written so far with the thread that wrote it. */
  datatype State = State(
    sn: nat,
    open: bool,
    request: Option<Command>,
    heading: bool,
    faulted: bool,
    owner: int,
    places: seq<Place>,
    saw: seq<Saw>,
    commands: seq<(nat, Command)>)

  const NOBODY := -1

  predicate Holds(p: Place) {
    !(p.Outside? || p.Waiting? || p.Done?)
  }

  predicate Start(s: State) {
    !s.open && s.request.None? && !s.heading && !s.faulted && s.owner == NOBODY && s.commands == []
    && |s.saw| == |s.places|
    && forall t :: 0 <= t < |s.places| ==> s.places[t] == Outside && s.saw[t] == Unread
  }

  function Move(s: State, t: nat, p: Place): State
    requires t < |s.places|
  {
    s.(places := s.places[t := p])
  }

  function Write(s: State, t: nat, p: Place, c: Command): State
    requires t < |s.places|
  {
    Move(s, t, p).(request := Some(c), commands := s.commands + [(t, c)])
  }

  /** A wait that gives up faults the socket. */
  function GiveUp(s: State, t: nat): State
    requires t < |s.places|
  {
    Move(s, t, Leaving(SOCKERR_TIMEOUT)).(faulted := true)
  }

  /** The chip accepts a command, and some time later shows the status it leads to.  It does not open
      or close the socket on its own. */
  predicate ChipStep(s: State, s': State) {
    || s' == s
    || (s.request.Some? && s' == s.(request := None, heading := s.request.value == Open))
    || s' == s.(open := s.heading)
  }

  predicate ThreadStep(s: State, s': State, t: nat)
    requires t < |s.places| == |s.saw|
  {
    match s.places[t]
    case Outside => s' == Move(s, t, Waiting).(saw := s.saw[t := if s.open then SawOther else SawClosed])
    case Waiting => s.owner == NOBODY && s' == Move(s, t, Entering).(owner := t)
    case Entering =>
      if s.faulted then s' == Move(s, t, Leaving(SOCKERR_NOTREADY))
      else
        || s' == Move(s, t, Leaving(SOCKERR_TIMEOUT))  // no time source
        || s' == Move(s, t, if !s.open then Clear
                            else if s.saw[t] == SawClosed then Leaving(SOCKERR_SOCKSTATUS)
                            else Removing)
    case Removing => if s.open then s' == Write(s, t, Closing, Close) else s' == Move(s, t, Clear)
    case Closing => s' == GiveUp(s, t) || (s.request.None? && s' == Move(s, t, Falling))
    case Falling => s' == GiveUp(s, t) || (!s.open && s' == Move(s, t, Clear))
    case Clear => s' == Move(s, t, Leaving(SOCKERR_SOCKINIT))  // no own address
                  || s' == Write(s, t, Opening, Open)
    case Opening => s' == GiveUp(s, t) || (s.request.None? && s' == Move(s, t, Rising))
    case Rising => s' == GiveUp(s, t) || (s.open && s' == Move(s, t, Leaving(s.sn)))
    case Leaving(ret) => s' == Move(s, t, Done(ret)).(owner := NOBODY)
    case Done(_) => false
  }

  ghost predicate Next(s: State, s': State)
    requires |s.saw| == |s.places|
  {
    ChipStep(s, s') || exists t: nat :: t < |s.places| && ThreadStep(s, s', t)
  }

  predicate SameThreads(states: seq<State>) {
    |states| > 0 && forall i :: 0 <= i < |states| ==>
      |states[i].saw| == |states[i].places| == |states[0].places| && states[i].sn == states[0].sn
  }

  ghost predicate Run(states: seq<State>) {
    SameThreads(states) && Start(states[0])
    && forall i :: 0 <= i < |states| - 1 ==> Next(states[i], states[i + 1])
  }

  /** The thread has been given the socket number. */
  predicate Winner(s: State, t: nat)
    requires t < |s.places|
  {
    s.places[t] == Leaving(s.sn) || s.places[t] == Done(s.sn)
  }

  // ----- What holds in every state

  function Last(s: State): (nat, Command)
    requires s.commands != []
  {
    s.commands[|s.commands| - 1]
  }

  /** The chip has carried out every command written. */
  predicate Quiescent(s: State) {
    s.request.None? && s.heading == s.open == (|s.commands| % 2 == 1)
  }

  /** The last command is this thread's, and the chip is on its way to carry it out. */
  predicate InProgress(s: State, t: nat, c: Command) {
    s.commands != [] && Last(s) == (t, c)
    && (s.request.Some? ==> s.request.value == c && s.heading == s.open == (c == Close))
    && (s.request.None? ==> s.heading == (c == Open))
  }

  /** Where the holder of the lock is, and how far the chip. */
  predicate PlaceOk(s: State, t: nat)
    requires t < |s.places|
  {
    match s.places[t]
    case Removing => !s.faulted && s.open
    case Closing => !s.faulted && InProgress(s, t, Close)
    case Falling => !s.faulted && InProgress(s, t, Close) && s.request.None?
    case Clear => !s.faulted && !s.open
    case Opening => !s.faulted && InProgress(s, t, Open)
    case Rising => !s.faulted && InProgress(s, t, Open) && s.request.None?
    case _ => true
  }

  predicate Busy(p: Place) {
    p.Closing? || p.Falling? || p.Opening? || p.Rising?
  }

  /** Command number i: OPEN and CLOSE alternate, and CLOSE is written only by a thread that read
      another status than CLOSED before it took the lock. */
  predicate CommandOk(s: State, i: nat)
    requires i < |s.commands| && |s.saw| == |s.places|
  {
    s.commands[i].1 == (if i % 2 == 0 then Open else Close)
    && s.commands[i].0 < |s.saw| && (s.commands[i].1 == Close ==> s.saw[s.commands[i].0] == SawOther)
  }

  /** The OPEN of a winner. */
  predicate Opened(s: State, t: nat, k: nat) {
    k < |s.commands| && s.commands[k] == (t, Open)
  }

  predicate SawOk(s: State, t: nat)
    requires t < |s.places| == |s.saw|
  {
    (s.places[t].Outside? <==> s.saw[t] == Unread)
    && (s.places[t].Removing? || s.places[t].Closing? || s.places[t].Falling? ==> s.saw[t] == SawOther)
  }

  ghost predicate Inv(s: State) {
    |s.saw| == |s.places|
    && (forall t :: 0 <= t < |s.places| ==> (Holds(s.places[t]) <==> s.owner == t) && SawOk(s, t) && PlaceOk(s, t))
    && (forall i :: 0 <= i < |s.commands| ==> CommandOk(s, i))
    && (!s.faulted && !(0 <= s.owner < |s.places| && Busy(s.places[s.owner])) ==> Quiescent(s))
    && (s.faulted ==> s.commands != [] && Last(s).0 < |s.places|
                      && s.places[Last(s).0] in {Leaving(SOCKERR_TIMEOUT), Done(SOCKERR_TIMEOUT)})
    && (forall t: nat :: t < |s.places| && Winner(s, t) ==> exists k :: Opened(s, t, k))
  }

  lemma StartInv(s: State)
    requires Start(s)
    ensures Inv(s)
  {
  }

  lemma ChipInv(s: State, s': State)
    requires Inv(s) && ChipStep(s, s')
    ensures Inv(s')
  {
    forall t | 0 <= t < |s.places| ensures PlaceOk(s', t) && SawOk(s', t) {
      assert PlaceOk(s, t) && SawOk(s, t);
    }
    forall i | 0 <= i < |s.commands| ensures CommandOk(s', i) {
      assert CommandOk(s, i);
    }
    forall t: nat | t < |s.places| && Winner(s', t) ensures exists k :: Opened(s', t, k) {
      assert Winner(s, t);
      var k :| Opened(s, t, k);
      assert Opened(s', t, k);
    }
  }

  /** Only the thread that moves changes its place and what it has seen. */
  predicate Frame(s: State, s': State, t: nat)
    requires t < |s.places| == |s.saw|
  {
    s'.sn == s.sn && s'.open == s.open
    && |s'.places| == |s.places| && s'.places == s.places[t := s'.places[t]]
    && (if s.places[t].Outside? then |s'.saw| == |s.saw| && s'.saw == s.saw[t := s'.saw[t]] else s'.saw == s.saw)
    && (|| s'.commands == s.commands
        || s'.commands == s.commands + [(t, Open)]
        || s'.commands == s.commands + [(t, Close)])
  }

  predicate Early(p: Place) {
    p.Outside? || p.Waiting? || p.Entering? || p.Removing?
  }

  lemma EarlyStays(s: State, s': State, t: nat)
    requires |s.saw| == |s.places| && t < |s.places| && ThreadStep(s, s', t) && Early(s.places[t])
    ensures Frame(s, s', t)
  {
  }

  lemma LaterStays(s: State, s': State, t: nat)
    requires |s.saw| == |s.places| && t < |s.places| && ThreadStep(s, s', t) && !Early(s.places[t])
    ensures Frame(s, s', t)
  {
  }

  lemma OthersStay(s: State, s': State, t: nat)
    requires |s.saw| == |s.places| && t < |s.places| && ThreadStep(s, s', t)
    ensures Frame(s, s', t)
  {
    hide ThreadStep, Frame;
    if Early(s.places[t]) {
      EarlyStays(s, s', t);
    } else {
      LaterStays(s, s', t);
    }
  }

  lemma Writes(s: State, s': State, t: nat)
    requires t < |s.places| == |s.saw| && ThreadStep(s, s', t) && s'.commands != s.commands
    ensures || (s.places[t].Removing? && s.open && s'.commands == s.commands + [(t, Close)])
            || (s.places[t].Clear? && s'.commands == s.commands + [(t, Open)])
  {
  }

  lemma CommandsInv(s: State, s': State, t: nat)
    requires Inv(s) && t < |s.places| && ThreadStep(s, s', t)
    ensures |s'.saw| == |s'.places| && forall i :: 0 <= i < |s'.commands| ==> CommandOk(s', i)
  {
    assert SawOk(s, t) && PlaceOk(s, t) && (Holds(s.places[t]) <==> s.owner == t);
    OthersStay(s, s', t);
    if s'.commands != s.commands {
      Writes(s, s', t);
    }
    hide ThreadStep;
    forall i | 0 <= i < |s'.commands| ensures CommandOk(s', i) {
      if i < |s.commands| {
        assert CommandOk(s, i) && s'.commands[i] == s.commands[i];
        assert SawOk(s, s.commands[i].0);
      }
    }
  }

  lemma PlacesInv(s: State, s': State, t: nat, u: nat)
    requires Inv(s) && t < |s.places| && ThreadStep(s, s', t) && u < |s.places|
    ensures |s'.saw| == |s'.places| == |s.places|
    ensures (Holds(s'.places[u]) <==> s'.owner == u) && SawOk(s', u) && PlaceOk(s', u)
  {
    assert SawOk(s, t) && PlaceOk(s, t) && (Holds(s.places[t]) <==> s.owner == t);
    OthersStay(s, s', t);
    if u == t {
      MoverOk(s, s', t);
    } else {
      assert SawOk(s, u) && PlaceOk(s, u) && (Holds(s.places[u]) <==> s.owner == u);
      OtherOk(s, s', t, u);
    }
  }

  lemma MoverOk(s: State, s': State, t: nat)
    requires Inv(s) && t < |s.places| && ThreadStep(s, s', t) && |s'.saw| == |s'.places| == |s.places|
    ensures (Holds(s'.places[t]) <==> s'.owner == t) && SawOk(s', t) && PlaceOk(s', t)
  {
    assert SawOk(s, t) && PlaceOk(s, t) && (Holds(s.places[t]) <==> s.owner == t);
    if Early(s.places[t]) {
      EarlyMoverOk(s, s', t);
    } else {
      LaterMoverOk(s, s', t);
    }
  }

  lemma EarlyMoverOk(s: State, s': State, t: nat)
    requires Inv(s) && t < |s.places| && ThreadStep(s, s', t) && |s'.saw| == |s'.places| == |s.places|
    requires SawOk(s, t) && PlaceOk(s, t) && (Holds(s.places[t]) <==> s.owner == t) && Early(s.places[t])
    ensures (Holds(s'.places[t]) <==> s'.owner == t) && SawOk(s', t) && PlaceOk(s', t)
  {
  }

  lemma LaterMoverOk(s: State, s': State, t: nat)
    requires Inv(s) && t < |s.places| && ThreadStep(s, s', t) && |s'.saw| == |s'.places| == |s.places|
    requires SawOk(s, t) && PlaceOk(s, t) && (Holds(s.places[t]) <==> s.owner == t) && !Early(s.places[t])
    ensures (Holds(s'.places[t]) <==> s'.owner == t) && SawOk(s', t) && PlaceOk(s', t)
  {
  }

  /** Only one thread holds the lock, so a thread that moves without it, or while another waits for
      it, leaves the chip and that other thread alone. */
  lemma OtherOk(s: State, s': State, t: nat, u: nat)
    requires t < |s.places| && u < |s.places| && t != u && |s'.saw| == |s'.places| == |s.places| == |s.saw|
    requires (Holds(s.places[t]) <==> s.owner == t) && (Holds(s.places[u]) <==> s.owner == u)
    requires SawOk(s, u) && PlaceOk(s, u) && ThreadStep(s, s', t)
    ensures (Holds(s'.places[u]) <==> s'.owner == u) && SawOk(s', u) && PlaceOk(s', u)
  {
    OthersStay(s, s', t);
    LockMoves(s, s', t);
    hide ThreadStep;
  }

  lemma LockMoves(s: State, s': State, t: nat)
    requires t < |s.places| == |s.saw| && (Holds(s.places[t]) <==> s.owner == t) && ThreadStep(s, s', t)
    ensures if Holds(s.places[t]) then s'.owner == t || s'.owner == NOBODY
            else (s'.owner == s.owner || (s.owner == NOBODY && s'.owner == t)) && s'.commands == s.commands
                 && s'.request == s.request && s'.heading == s.heading && s'.faulted == s.faulted
  {
  }

  lemma ChipFollows(s: State, s': State, t: nat)
    requires Inv(s) && t < |s.places| && ThreadStep(s, s', t)
    ensures |s'.places| == |s.places|
    ensures !s'.faulted && !(0 <= s'.owner < |s'.places| && Busy(s'.places[s'.owner])) ==> Quiescent(s')
    ensures s'.faulted ==> s'.commands != [] && Last(s').0 < |s'.places|
                           && s'.places[Last(s').0] in {Leaving(SOCKERR_TIMEOUT), Done(SOCKERR_TIMEOUT)}
  {
    assert SawOk(s, t) && PlaceOk(s, t) && (Holds(s.places[t]) <==> s.owner == t);
    OthersStay(s, s', t);
    if s.commands != [] {
      assert CommandOk(s, |s.commands| - 1);
    }
  }

  lemma Winning(s: State, s': State, t: nat)
    requires t < |s.places| == |s.saw| == |s'.places| && PlaceOk(s, t) && ThreadStep(s, s', t)
    requires Winner(s', t) && !Winner(s, t)
    ensures s.places[t].Rising?
  {
  }

  lemma WinnersInv(s: State, s': State, t: nat, u: nat)
    requires Inv(s) && t < |s.places| && ThreadStep(s, s', t) && u < |s.places|
    ensures |s'.places| == |s.places| && (Winner(s', u) ==> exists k :: Opened(s', u, k))
  {
    assert SawOk(s, t) && PlaceOk(s, t);
    OthersStay(s, s', t);
    hide ThreadStep;
    if Winner(s', u) {
      if Winner(s, u) {
        var k :| Opened(s, u, k);
        assert Opened(s', u, k);
      } else {
        Winning(s, s', t);
        assert Opened(s', u, |s.commands| - 1);
      }
    }
  }

  lemma StepInv(s: State, s': State)
    requires Inv(s) && Next(s, s')
    ensures Inv(s')
  {
    if ChipStep(s, s') {
      ChipInv(s, s');
    } else {
      var t: nat :| t < |s.places| && ThreadStep(s, s', t);
      CommandsInv(s, s', t);
      ChipFollows(s, s', t);
      forall u: nat | u < |s.places|
        ensures (Holds(s'.places[u]) <==> s'.owner == u) && SawOk(s', u) && PlaceOk(s', u)
        ensures Winner(s', u) ==> exists k :: Opened(s', u, k)
      {
        PlacesInv(s, s', t, u);
        WinnersInv(s, s', t, u);
      }
      hide ThreadStep, ChipStep, PlaceOk, CommandOk, SawOk, Quiescent, Holds, Winner;
    }
  }

  lemma {:induction false} RunInv(states: seq<State>, i: nat)
    requires Run(states) && i < |states|
    ensures Inv(states[i])
  {
    if i == 0 {
      StartInv(states[0]);
    } else {
      RunInv(states, i - 1);
      StepInv(states[i - 1], states[i]);
    }
  }

  // ----- What that means

  /** In every state of every run, with any number of threads: whoever has written CLOSE had read a
      status other than CLOSED before it took the lock, and it closed what the OPEN before had opened. */
  lemma CloserSawOther(states: seq<State>, i: nat, k: nat)
    requires Run(states) && i < |states| && k < |states[i].commands| && states[i].commands[k].1 == Close
    ensures states[i].commands[k].0 < |states[i].saw| && states[i].saw[states[i].commands[k].0] == SawOther
    ensures k > 0 && states[i].commands[k - 1].1 == Open
  {
    RunInv(states, i);
    assert CommandOk(states[i], k) && CommandOk(states[i], k - 1);
  }

  /** A winner has written an OPEN.  If nothing was written since, its socket is open and healthy;
      otherwise the next command was the CLOSE of a thread that had read another status than CLOSED. */
  lemma WinnerKeeps(states: seq<State>, i: nat, t: nat) returns (k: nat)
    requires Run(states) && i < |states| && t < |states[i].places| && Winner(states[i], t)
    ensures var s := states[i];
            Opened(s, t, k)
            && if k == |s.commands| - 1
               then s.open && !s.faulted
               else s.commands[k + 1].1 == Close && s.commands[k + 1].0 < |s.saw|
                    && s.saw[s.commands[k + 1].0] == SawOther
  {
    var s := states[i];
    RunInv(states, i);
    k :| Opened(s, t, k);
    assert CommandOk(s, k);
    if k < |s.commands| - 1 {
      assert CommandOk(s, k + 1);
    } else {
      assert Holds(s.places[t]) <==> s.owner == t;
      if 0 <= s.owner < |s.places| && Busy(s.places[s.owner]) {
        assert PlaceOk(s, s.owner);
      }
    }
  }

  lemma SecondIsClose(s: State)
    requires Inv(s) && |s.commands| > 1
    ensures SawOther in s.saw
  {
    assert CommandOk(s, 1);
  }

  /** So, as long as every thread that has read the status read CLOSED: at most one thread has been
      given the socket number, no CLOSE was written and at most one OPEN, by the winner if there is
      one, and a socket once won stays open. */
  lemma AtMostOneWinner(states: seq<State>, i: nat, t: nat, u: nat)
    requires Run(states) && i < |states| && t < |states[i].places| && u < |states[i].places|
    requires SawOther !in states[i].saw
    ensures Winner(states[i], t) && Winner(states[i], u) ==> t == u
    ensures |states[i].commands| <= 1 && forall c :: c in states[i].commands ==> c.1 == Open
    ensures Winner(states[i], t) ==> states[i].commands == [(t, Open)] && states[i].open
  {
    RunInv(states, i);
    var s := states[i];
    if |s.commands| > 1 {
      SecondIsClose(s);
    }
    assert s.commands != [] ==> CommandOk(s, 0);
    if Winner(s, t) {
      var k := WinnerKeeps(states, i, t);
    }
    if Winner(s, u) {
      var k := WinnerKeeps(states, i, u);
    }
  }

  /** A thread that read CLOSED leaves alone what it finds open: from the moment it holds the lock it
      can only be refused, and writes nothing. */
  lemma LoserWritesNothing(states: seq<State>, i: nat, u: nat)
    requires Run(states) && i + 1 < |states| && u < |states[i].places|
    requires states[i].open && states[i].saw[u] == SawClosed && Holds(states[i].places[u])
    requires !Busy(states[i].places[u]) && ThreadStep(states[i], states[i + 1], u)
    ensures states[i + 1].commands == states[i].commands && states[i + 1].open
    ensures !states[i].places[u].Leaving? ==>
              states[i + 1].places[u] in
                {Leaving(SOCKERR_NOTREADY), Leaving(SOCKERR_TIMEOUT), Leaving(SOCKERR_SOCKSTATUS)}
  {
    RunInv(states, i);
    assert SawOk(states[i], u) && PlaceOk(states[i], u);
  }

  // ----- A thread that read another status does take the socket from its winner

  ghost predicate Ends(states: seq<State>, s: State) {
    Run(states) && states[|states| - 1] == s
  }

  lemma Extend(states: seq<State>, s: State, s': State) returns (more: seq<State>)
    requires Ends(states, s) && |s'.saw| == |s'.places| == |s.places| && s'.sn == s.sn && Next(s, s')
    ensures Ends(more, s') && states <= more
  {
    more := states + [s'];
    forall i | 0 <= i < |more| - 1 ensures Next(more[i], more[i + 1]) {
      if i < |states| - 1 {
        assert Next(states[i], states[i + 1]);
      }
    }
  }

  lemma Go(states: seq<State>, s: State, s': State, t: nat) returns (more: seq<State>)
    requires Ends(states, s) && |s.saw| == |s.places| && t < |s.places| && ThreadStep(s, s', t)
    ensures Ends(more, s') && states <= more && |s'.saw| == |s'.places| == |s.places|
  {
    OthersStay(s, s', t);
    more := Extend(states, s, s');
  }

  /** The chip carries out the command just written. */
  lemma Obeys(states: seq<State>, s: State) returns (more: seq<State>, s': State)
    requires Ends(states, s) && |s.saw| == |s.places| && s.request.Some?
    ensures Ends(more, s') && states <= more
    ensures s' == s.(request := None, heading := s.request.value == Open, open := s.request.value == Open)
  {
    var accepted := s.(request := None, heading := s.request.value == Open);
    s' := accepted.(open := accepted.heading);
    more := Extend(states, s, accepted);
    more := Extend(more, accepted, s');
  }

  /** A thread that has found the socket closed opens it. */
  lemma Opens(states: seq<State>, s: State, u: nat) returns (more: seq<State>, s': State)
    requires Ends(states, s) && |s.saw| == |s.places| && u < |s.places| && s.places[u].Clear? && !s.open && !s.faulted
    ensures Ends(more, s') && states <= more
    ensures s' == Move(s, u, Done(s.sn)).(request := None, heading := true, open := true, owner := NOBODY,
                                          commands := s.commands + [(u, Open)])
  {
    var opening := Write(s, u, Opening, Open);
    more := Go(states, s, opening, u);
    var up;
    more, up := Obeys(more, opening);
    more := Go(more, up, Move(up, u, Rising), u);
    var rising := Move(up, u, Rising);
    more := Go(more, rising, Move(rising, u, Leaving(s.sn)), u);
    var leaving := Move(rising, u, Leaving(s.sn));
    s' := Move(leaving, u, Done(s.sn)).(owner := NOBODY);
    more := Go(more, leaving, s', u);
  }

  /** A thread that reads the status of an open socket, and then gets the lock, closes it. */
  lemma Closes(states: seq<State>, s: State, u: nat) returns (more: seq<State>, s': State)
    requires Ends(states, s) && |s.saw| == |s.places| && u < |s.places| && s.places[u].Outside?
    requires s.open && !s.faulted && s.owner == NOBODY
    ensures Ends(more, s') && states <= more
    ensures s' == Move(s, u, Clear).(request := None, heading := false, open := false, owner := u,
                                     saw := s.saw[u := SawOther], commands := s.commands + [(u, Close)])
  {
    var waiting := Move(s, u, Waiting).(saw := s.saw[u := SawOther]);
    more := Go(states, s, waiting, u);
    var entering := Move(waiting, u, Entering).(owner := u);
    more := Go(more, waiting, entering, u);
    var removing := Move(entering, u, Removing);
    more := Go(more, entering, removing, u);
    var closing := Write(removing, u, Closing, Close);
    more := Go(more, removing, closing, u);
    var down;
    more, down := Obeys(more, closing);
    var falling := Move(down, u, Falling);
    more := Go(more, down, falling, u);
    s' := Move(falling, u, Clear);
    more := Go(more, falling, s', u);
  }

  /** Whatever run has led to a winner with an open socket and a free lock: a thread that only now
      reads the status can take the socket over, and then both have been given the number. */
  lemma TakenOver(states: seq<State>, s: State, t: nat, u: nat) returns (more: seq<State>, s': State)
    requires Ends(states, s) && |s.saw| == |s.places| && t < |s.places| && u < |s.places|
    requires Winner(s, t) && s.places[u].Outside? && s.open && !s.faulted && s.owner == NOBODY
    ensures Ends(more, s') && states <= more && |s'.places| == |s.places|
    ensures Winner(s', t) && Winner(s', u) && t != u
    ensures s'.commands == s.commands + [(u, Close)] + [(u, Open)]
  {
    var closed;
    more, closed := Closes(states, s, u);
    more, s' := Opens(more, closed, u);
  }

  /** There are such runs, with any number of threads from two on. */
  lemma TwoWinners(sn: nat, n: nat) returns (states: seq<State>, s: State)
    requires n >= 2
    ensures Ends(states, s) && |s.places| == n && Winner(s, 0) && Winner(s, 1)
    ensures s.commands == [(0, Open), (1, Close), (1, Open)]
  {
    var start := State(sn, false, None, false, false, NOBODY, seq(n, _ => Outside), seq(n, _ => Unread), []);
    states := [start];
    var waiting := Move(start, 0, Waiting).(saw := start.saw[0 := SawClosed]);
    states := Go(states, start, waiting, 0);
    var entering := Move(waiting, 0, Entering).(owner := 0);
    states := Go(states, waiting, entering, 0);
    var clear := Move(entering, 0, Clear);
    states := Go(states, entering, clear, 0);
    var won;
    states, won := Opens(states, clear, 0);
    states, s := TakenOver(states, won, 0, 1);
  }
}

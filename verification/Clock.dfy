/**
 Time in Ethernet/wizchip_conf.c: a 64-bit timeline rebuilt from a 32-bit microsecond counter
 that wraps, absolute deadlines on that timeline, and polls bounded both by a deadline and by a
 count.
 */
module Clock {
  import opened Codes

  const WRAP := 0x1_0000_0000
  const FOREVER := 0xFFFF_FFFF_FFFF_FFFF

  // ----- Reconstruction of the timeline

  /** The two statics of the reconstruction: wraps counted so far, and the last raw sample. */
  datatype Timeline = Timeline(base: nat, last: nat) {
    function Now(): nat {
      base + last
    }
  }

  const RESET := Timeline(0, 0)

  function Observe(t: Timeline, raw: nat): Timeline {
    Timeline(if raw < t.last then t.base + WRAP else t.base, raw)
  }

  /** The timeline is in step with true time: same position within the 32-bit period. */
  predicate InStep(t: Timeline, time: nat) {
    t.last == time % WRAP && t.base % WRAP == 0
  }

  /** One sample: the elapsed time shown is the true one exactly when less than a whole period
      passed since the sample before; otherwise whole periods are lost. */
  lemma ObserveExact(t: Timeline, time: nat, time': nat)
    requires InStep(t, time) && time <= time'
    ensures InStep(Observe(t, time' % WRAP), time')
    ensures Observe(t, time' % WRAP).Now() - t.Now() == time' - time <==> time' - time < WRAP
    ensures Observe(t, time' % WRAP).Now() - t.Now() <= time' - time
  {
    var q, q' := time / WRAP, time' / WRAP;
    assert time == q * WRAP + t.last && time' == q' * WRAP + time' % WRAP;
  }

  function ObserveAll(t: Timeline, times: seq<nat>): Timeline {
    if times == [] then t
    else Observe(ObserveAll(t, times[..|times| - 1]), times[|times| - 1] % WRAP)
  }

  predicate Ordered(times: seq<nat>) {
    forall i, j :: 0 <= i <= j < |times| ==> times[i] <= times[j]
  }

  /** Consecutive samples are less than a period (about 71 minutes) apart. */
  predicate Frequent(times: seq<nat>) {
    forall i :: 0 < i < |times| ==> times[i] < times[i - 1] + WRAP
  }

  /** Over any number of samples, hence any number of wraps, the rebuilt time differs from true
      time by the constant it differed by at the first one. */
  lemma {:induction false} TimelineFaithful(times: seq<nat>)
    requires times != [] && Ordered(times) && Frequent(times)
    ensures InStep(ObserveAll(RESET, times), times[|times| - 1])
    ensures times[|times| - 1] - ObserveAll(RESET, times).Now() == times[0] / WRAP * WRAP
    decreases |times|
  {
    var n := |times| - 1;
    if n == 0 {
      assert ObserveAll(RESET, times[..0]) == RESET;
    } else {
      var before := times[..n];
      TimelineFaithful(before);
      ObserveExact(ObserveAll(RESET, before), before[n - 1], times[n]);
    }
  }

  // ----- Deadlines

  /** One wait in progress (wizchip_deadline_t). */
  datatype Poll = Poll(started: nat, timeout: nat, polls: nat)

  /** The time statics, and the true time they are read against.  A registered time source is
      read on every call; without one, time is a count of polls. */
  class TimeSource {
    const active: bool
    var timeline: Timeline
    var pollCounter: nat
    ghost var time: nat
    ghost var origin: nat

    ghost predicate Valid()
      reads this
    {
      active ==> InStep(timeline, time) && time == timeline.Now() + origin
    }

    /** Starts after a first sample at the given true time. */
    constructor (active: bool, ghost time: nat, raw: nat)
      requires raw == time % WRAP
      ensures Valid() && this.active == active && this.time == time && origin == time / WRAP * WRAP
    {
      this.active := active;
      timeline := Observe(RESET, raw);
      pollCounter := 0;
      this.time := time;
      origin := time / WRAP * WRAP;
    }

    /** The platform's counter, read after some time has passed: less than a period, which is what
        the library asks of its callers. */
    method Raw() returns (raw: nat)
      requires Valid() && active
      modifies this`time
      ensures old(time) <= time < old(time) + WRAP
      ensures raw == time % WRAP
    {
      var passed: nat :| passed < WRAP;
      raw := (timeline.last + passed) % WRAP;
      time := time + passed;
    }

    /** wizchip_time_now: with a time source, true time less the origin. */
    method Now() returns (t: nat)
      requires Valid()
      modifies this
      ensures Valid() && origin == old(origin) && old(time) <= time
      ensures active ==> t == time - origin
      ensures !active ==> t == pollCounter
      ensures pollCounter == old(pollCounter)
    {
      if active {
        var raw := Raw();
        ObserveExact(timeline, old(time), time);
        timeline := Observe(timeline, raw);
        t := timeline.Now();
      } else {
        t := pollCounter;
      }
    }

    /** wizchip_deadline_abs. */
    method Deadline(timeout: nat) returns (deadline: nat)
      requires Valid()
      modifies this
      ensures Valid() && origin == old(origin) && old(time) <= time
      ensures active ==> deadline == time - origin + timeout
      ensures !active ==> deadline == 0
    {
      if active {
        var t := Now();
        return t + timeout;
      }
      pollCounter := 0;
      return 0;
    }

    /** wizchip_deadline_expired: with a time source, never before the true time of the deadline. */
    method Expired(deadline: nat) returns (expired: bool)
      requires Valid()
      modifies this
      ensures Valid() && origin == old(origin) && old(time) <= time
      ensures active ==> (expired <==> time >= deadline + origin)
    {
      if active {
        var t := Now();
        return t >= deadline;
      }
      pollCounter := (pollCounter + 1) % WRAP;
      return pollCounter >= deadline;
    }

    /** wizchip_deadline_expired again, where the counter has moved since it was last read. */
    method ExpiredLater(deadline: nat) returns (expired: bool)
      requires Valid() && active
      modifies this
      ensures Valid() && origin == old(origin) && old(time) < time
      ensures expired <==> time >= deadline + origin
    {
      var passed: nat :| 0 < passed < WRAP;
      var raw := (timeline.last + passed) % WRAP;
      time := time + passed;
      ObserveExact(timeline, old(time), time);
      timeline := Observe(timeline, raw);
      return timeline.Now() >= deadline;
    }

    /** wait_poll_init: an unlimited timeout, so only the count and the deadline end the wait. */
    method StartPoll() returns (poll: Poll)
      requires Valid()
      modifies this
      ensures Valid() && origin == old(origin) && old(time) <= time
      ensures poll.polls == 0 && poll.timeout == FOREVER
      ensures active ==> poll.started == time - origin
    {
      var t := Now();
      return Poll(t, FOREVER, 0);
    }

    /** wait_poll_expired: one more poll.  It ends the wait at the poll cap, and otherwise only
        once the true time of the deadline (or the unlimited timeout) has been reached. */
    method PollExpired(poll: Poll, deadline: nat) returns (expired: bool, poll': Poll)
      requires Valid() && active
      modifies this
      ensures Valid() && origin == old(origin) && old(time) <= time
      ensures poll' == poll.(polls := poll.polls + 1)
      ensures expired ==> poll'.polls >= POLL_MAX || time >= deadline + origin
                          || time - origin - poll.started >= poll.timeout
      ensures !expired ==> poll'.polls < POLL_MAX && time < deadline + origin
    {
      poll' := poll.(polls := poll.polls + 1);
      if poll'.polls >= POLL_MAX {
        return true, poll';
      }
      var t := Now();
      if t - poll.started >= poll.timeout {
        return true, poll';
      }
      expired := Expired(deadline);
    }
  }
}

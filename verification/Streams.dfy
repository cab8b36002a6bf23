/**
 A stream socket over a whole run: the pair of rings behind send and recv behaves like two unbounded
 byte queues, whatever the chip drains and deposits in between.
 */
module Streams {
  import opened Bytes
  import opened Chip
  import opened SocketState

  /** What a call on an open connection has done, as the contracts of the calls say: recv has handed
      over a chunk, send has taken data, anything else has done neither. */
  datatype Call = Received(chunk: seq<byte>) | Sent(data: seq<byte>) | Other

  predicate Does(a: Chip, call: Call, b: Chip) {
    match call
    case Received(chunk) => Took(a, b, |chunk|) && a.taken <= b.taken && chunk == b.arrived[a.taken..b.taken]
    case Sent(data) => Moved(a, b, data)
    case Other => Quiet(a, b)
  }

  /** The states between calls: one more than there are calls. */
  predicate Run(states: seq<Chip>, calls: seq<Call>) {
    |states| == |calls| + 1 && forall i :: 0 <= i < |calls| ==> Does(states[i], calls[i], states[i + 1])
  }

  function AllReceived(calls: seq<Call>): seq<byte> {
    if calls == [] then []
    else
      var call := calls[|calls| - 1];
      AllReceived(calls[..|calls| - 1]) + if call.Received? then call.chunk else []
  }

  function AllSent(calls: seq<Call>): seq<byte> {
    if calls == [] then []
    else
      var call := calls[|calls| - 1];
      AllSent(calls[..|calls| - 1]) + if call.Sent? then call.data else []
  }

  lemma {:induction false} RunAdds(states: seq<Chip>, calls: seq<Call>)
    requires Run(states, calls) && states[0].sent == [] && states[0].taken == 0
    ensures var end := states[|calls|];
            end.sent == AllSent(calls) && end.taken == |AllReceived(calls)|
            && AllReceived(calls) <= end.arrived && states[0].epoch == end.epoch
    decreases |calls|
  {
    if calls != [] {
      var n := |calls| - 1;
      assert Does(states[n], calls[n], states[n + 1]);
      RunAdds(states[..n + 1], calls[..n]);
      hide Run;
      StepAdds(states[n], calls[n], states[n + 1], AllReceived(calls[..n]));
    }
  }

  lemma StepAdds(a: Chip, call: Call, b: Chip, received: seq<byte>)
    requires Does(a, call, b) && received <= a.arrived && a.taken == |received|
    ensures var all := received + (if call.Received? then call.chunk else []);
            all <= b.arrived && b.taken == |all|
    ensures b.sent == a.sent + if call.Sent? then call.data else []
  {
    if call.Received? {
      assert b.arrived[..a.taken] == received;
      assert b.arrived[..b.taken] == b.arrived[..a.taken] + b.arrived[a.taken..b.taken];
    }
  }

  /** From the opening of the connection on: all that send took is what the chip has drained, followed
      by what its transmit ring still holds; all that has arrived is what recv handed over, followed
      by what the receive ring still holds; and the pointers account for what is held. */
  lemma TwoQueues(states: seq<Chip>, calls: seq<Call>)
    requires Run(states, calls) && states[0].sent == [] && states[0].taken == 0
    requires ChipOk(states[|calls|]) && !states[|calls|].torn && !states[|calls|].overrun
    ensures var end := states[|calls|];
            AllSent(calls) == end.sent[..end.drained] + end.tx.Queue()
            && end.arrived == AllReceived(calls) + end.rx.Queue()
            && |end.arrived| == |AllReceived(calls)| + Wrap(end.rx.wr - end.rx.rd)
            && |AllSent(calls)| == end.drained + Wrap(end.tx.wr - end.tx.rd)
  {
    var end := states[|calls|];
    RunAdds(states, calls);
    assert |end.rx.Queue()| == end.rx.Used() && |end.tx.Queue()| == end.tx.Used();
    assert end.arrived[..end.taken] == AllReceived(calls);
  }
}

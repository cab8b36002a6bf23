/**
 Reading a 16-bit size register one byte at a time while the chip moves it.  During one call
 the register can only grow: free space because only the chip drains, received size because
 only the chip deposits.
 */
module Sampling {
  import opened Bytes

  /** Two torn reads over instants a, b, c, d that agree: what they show was truly held at b. */
  lemma AgreeingReadsAreTrue(a: word, b: word, c: word, d: word)
    requires a <= b <= c <= d
    requires Word(High(a), Low(b)) == Word(High(c), Low(d))
    ensures Word(High(a), Low(b)) == b
  {
    assert High(a) == High(c);
    assert High(a) <= High(b) <= High(c);
  }

  lemma WholeWord(w: word)
    ensures Word(High(w), Low(w)) == w
  {
  }

  /** A read during which the register does not move is exact. */
  lemma NoGrowthAgrees(start: word, high: word, low: word, end: word)
    requires start <= high <= low <= end
    ensures start == end ==> Word(High(high), Low(low)) == end
  {
    WholeWord(end);
  }

  /** A read of a growing register never shows more than it holds at the end. */
  lemma TornBelow(high: word, low: word)
    requires high <= low
    ensures Word(High(high), Low(low)) <= low
  {
    WholeWord(low);
    assert High(high) <= High(low);
  }

  /** One torn read may show a value never held: across 0x00FF -> 0x0100 it reads zero. */
  lemma SingleReadMayLie()
    ensures Word(High(0x00FF), Low(0x0100)) == 0
  {
  }

  /** The register has held v since it had the history first, of which the last value still counts. */
  predicate HeldSince(first: seq<word>, history: seq<word>, v: word) {
    0 < |first| && first <= history && v in history[|first| - 1..]
  }

  lemma HeldLater(first: seq<word>, before: seq<word>, between: seq<word>, last: seq<word>, v: word)
    requires 0 < |first| && first <= before <= between <= last && HeldSince(before, between, v)
    ensures HeldSince(first, last, v)
  {
    var i :| 0 <= i < |between[|before| - 1..]| && between[|before| - 1..][i] == v;
    assert last[|first| - 1..][|before| - |first| + i] == v;
  }

  /** A register moved by the chip; history lists the values it has held, the current one last. */
  class SizeRegister {
    var value: word
    ghost var history: seq<word>

    ghost predicate Valid()
      reads this
    {
      |history| > 0 && history[|history| - 1] == value
      && forall i, j :: 0 <= i <= j < |history| ==> history[i] <= history[j]
    }

    constructor (v: word)
      ensures Valid() && history == [v]
    {
      value, history := v, [v];
    }

    /** Between two bus accesses the register may grow by any amount, or not at all. */
    method Elapse()
      requires Valid()
      modifies this
      ensures Valid() && old(value) <= value
      ensures old(history) <= history
      ensures value == old(value) ==> history == old(history)
    {
      var v: word :| value <= v;
      if v > value {
        value, history := v, history + [v];
      }
    }

    method ReadHigh() returns (b: byte)
      requires Valid()
      modifies this
      ensures Valid() && old(value) <= value && old(history) <= history
      ensures value == old(value) ==> history == old(history)
      ensures b == High(value)
    {
      Elapse();
      b := High(value);
    }

    method ReadLow() returns (b: byte)
      requires Valid()
      modifies this
      ensures Valid() && old(value) <= value && old(history) <= history
      ensures value == old(value) ==> history == old(history)
      ensures b == Low(value)
    {
      Elapse();
      b := Low(value);
    }

    /** Both bytes, high first; the second out-parameters are the instants they were read at. */
    method ReadTorn() returns (w: word, ghost high: word, ghost low: word)
      requires Valid()
      modifies this
      ensures Valid() && old(value) <= high <= low == value && old(history) <= history
      ensures w == Word(High(high), Low(low))
      ensures value == old(value) ==> history == old(history)
      ensures HeldSince(old(history), history, high) && HeldSince(old(history), history, low)
    {
      var h := ReadHigh();
      high := value;
      assert history[|history| - 1] == high;
      var l := ReadLow();
      low := value;
      w := Word(h, l);
      assert history[|history| - 1] == low;
    }

    /** One round of the loop below: the second read is skipped when the first shows zero, and val
        then keeps the value it had. */
    method Round(val0: word, ghost first: seq<word>) returns (agree: bool, val: word, ghost hi: word, ghost lo: word)
      requires Valid() && 0 < |first| && first <= history && val0 <= value
      modifies this
      ensures Valid() && first <= history && old(value) <= value && val <= value
      ensures agree ==>
                val == Word(High(hi), Low(lo)) && hi <= lo
                && HeldSince(first, history, hi) && HeldSince(first, history, lo)
                && (val != 0 ==> HeldSince(first, history, val))
      ensures !agree ==> old(value) < value
    {
      hide Word, High, Low, HeldSince;
      ghost var start, before := value, history;
      val := val0;
      var val1;
      val1, hi, lo := ReadTorn();
      ghost var between := history;
      if val1 != 0 {
        ghost var h, l;
        val, h, l := ReadTorn();
        TornBelow(h, l);
        if val == val1 {
          AgreeingReadsAreTrue(hi, lo, h, l);
        }
      }
      HeldLater(first, before, between, history, hi);
      HeldLater(first, before, between, history, lo);
      agree := val == val1;
      NoGrowthAgrees(start, hi, lo, value);
    }

    /** The W5100 sampling loop (getSn_TX_FSR and getSn_RX_RSR): repeats until two reads agree,
        the second being skipped when the first shows zero.  It terminates because every round
        that does not return has seen the register grow; it never overstates the register; the two
        bytes returned are those of two values it held during the call, the low one at the same time
        or later; and a nonzero result is a value it held during the call as a whole. */
    method SampleW5100() returns (val: word, ghost hi: word, ghost lo: word)
      requires Valid()
      modifies this
      ensures Valid() && old(history) <= history
      ensures hi <= lo && HeldSince(old(history), history, hi) && HeldSince(old(history), history, lo)
      ensures val == Word(High(hi), Low(lo)) <= value
      ensures val != 0 ==> HeldSince(old(history), history, val)
    {
      hide Word, High, Low, HeldSince;
      val := 0;
      ghost var first := history;
      while true
        invariant Valid() && first <= history && val <= value
        decreases 0x1_0000 - value
      {
        var agree;
        agree, val, hi, lo := Round(val, first);
        if agree {
          return;
        }
      }
    }
  }
}

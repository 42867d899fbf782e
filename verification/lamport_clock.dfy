/**
  A Lamport logical clock: a single non-negative counter that is ticked for
  local events and synchronised with the timestamps of received messages.
 */
module LamportClock {

  datatype Clock = Clock(ts: nat)

  /** A new clock starts at 0. */
  function New(): (c: Clock)
    ensures c.ts == 0
  {
    Clock(0)
  }

  /** Tick: the timestamp rises by exactly one. */
  function Update(c: Clock): (r: Clock)
    ensures r.ts == c.ts + 1
  {
    Clock(c.ts + 1)
  }

  function Max(a: int, b: int): int
  {
    if a < b then b else a
  }

  /**
    Receive-synchronisation: the new timestamp is one more than the larger
    of the local and the received timestamp, so it exceeds both.
   */
  function Synchronize(c: Clock, received: int): (r: Clock)
    ensures r.ts > c.ts && r.ts > received
    ensures r.ts - 1 == c.ts || r.ts - 1 == received
  {
    Clock(Max(c.ts, received) + 1)
  }

  /**
    Three-way comparison of the clock with another timestamp: -1, 0 or 1 as
    the clock is smaller than, equal to or larger than it.
   */
  function Compare(c: Clock, other: int): (r: int)
    ensures r == -1 || r == 0 || r == 1
    ensures r == -1 <==> c.ts < other
    ensures r == 0 <==> c.ts == other
    ensures r == 1 <==> c.ts > other
  {
    if c.ts < other then -1 else if c.ts == other then 0 else 1
  }

  /** A clock-changing call: `update()` or `synchronize(received)`. */
  datatype ClockOp = Tick | Sync(received: int)

  function Apply(c: Clock, op: ClockOp): Clock
  {
    match op
    case Tick => Update(c)
    case Sync(received) => Synchronize(c, received)
  }

  /** The clock after the calls in `ops`, made in order. */
  function Run(c: Clock, ops: seq<ClockOp>): Clock
    decreases |ops|
  {
    if ops == [] then c else Run(Apply(c, ops[0]), ops[1..])
  }

  /** Each call raises the timestamp by at least one. */
  lemma {:induction false} RunRaises(c: Clock, ops: seq<ClockOp>)
    ensures Run(c, ops).ts >= c.ts + |ops|
    decreases |ops|
  {
    if ops != [] {
      RunRaises(Apply(c, ops[0]), ops[1..]);
    }
  }

  /** Running two batches of calls one after the other is running their concatenation. */
  lemma {:induction false} RunAppend(c: Clock, a: seq<ClockOp>, b: seq<ClockOp>)
    ensures Run(c, a + b) == Run(Run(c, a), b)
    decreases |a|
  {
    if a == [] {
      assert a + b == b;
    } else {
      assert (a + b)[0] == a[0];
      assert (a + b)[1..] == a[1..] + b;
      RunAppend(Apply(c, a[0]), a[1..], b);
    }
  }

  /**
    The timestamp never decreases: along any sequence of calls, the clock
    after the first `i` calls is at most the clock after the first `j >= i`.
   */
  lemma RunMonotone(c: Clock, ops: seq<ClockOp>, i: nat, j: nat)
    requires i <= j <= |ops|
    ensures Run(c, ops[..i]).ts <= Run(c, ops[..j]).ts
  {
    assert ops[..j] == ops[..i] + ops[i..j];
    RunAppend(c, ops[..i], ops[i..j]);
    RunRaises(Run(c, ops[..i]), ops[i..j]);
  }
}

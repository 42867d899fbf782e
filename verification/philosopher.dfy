/**
  One philosopher's side of the request/reply/defer mutual-exclusion
  protocol, as pure transitions on an immutable node record. Every
  transition returns the new node together with the messages it sends,
  in the order it sends them.
 */
module Philosopher {
  import opened Messages
  import LamportClock

  /** The deferred-request queue holds at most two entries. */
  const QueueCapacity: nat := 2

  /**
    A philosopher's state. `timestamp` is the request timestamp the grant
    test compares against; `clock` is its Lamport clock; `deferred` is the
    FIFO of requests it postponed, oldest first.
   */
  datatype Node = Node(
    id: int,
    timestamp: int,
    clock: LamportClock.Clock,
    hasLeftFork: bool,
    hasRightFork: bool,
    inCriticalSection: bool,
    isRequesting: bool,
    deferred: seq<DeferredRequest>)

  /** The queue is within its capacity. */
  predicate Valid(n: Node)
  {
    |n.deferred| <= QueueCapacity
  }

  /** A transition that cannot fail: the new node and what it sent. */
  datatype Effect = Effect(node: Node, sent: seq<Send>)

  /**
    The result of handling an inbound message: either it was handled, or a
    request had to be deferred while the queue was already full; the
    queue's `add` then throws, after the clock has been synchronised.
   */
  datatype Outcome = Ok(node: Node, sent: seq<Send>) | Overflow(node: Node)

  /** A new philosopher: no forks, idle, timestamp and clock 0, nothing deferred. */
  function New(id: int): (n: Node)
    ensures n.id == id && n.timestamp == 0 && n.clock.ts == 0
    ensures !n.hasLeftFork && !n.hasRightFork
    ensures !n.inCriticalSection && !n.isRequesting
    ensures n.deferred == []
    ensures Valid(n)
  {
    Node(id, 0, LamportClock.New(), false, false, false, false, [])
  }

  /** Swaps the two directions. */
  function Reverse(d: Direction): (r: Direction)
    ensures r != d
  {
    if d == Left then Right else Left
  }

  /** Reversing twice gives the direction back. */
  lemma ReverseInvolution(d: Direction)
    ensures Reverse(Reverse(d)) == d
  {
  }

  /** The reply this node sends over link `d`: tagged with the reverse of `d`, stamped with its clock. */
  function ReplyOn(n: Node, d: Direction): Send
  {
    Send(d, Message(Reply, n.id, Reverse(d), n.clock.ts))
  }

  // ---------------------------------------------------------------------
  // Requesting and entering the critical section

  /**
    The first half of `requestForks`: tick the clock, mark the node as
    requesting and send a REQUEST to each neighbour, the one to the left
    tagged right and the one to the right tagged left, both stamped with
    the ticked clock. The request `timestamp` field is not written.
   */
  function StartRequest(n: Node): (e: Effect)
    ensures e.node.clock.ts == n.clock.ts + 1
    ensures e.node.isRequesting
    ensures e.node == n.(clock := e.node.clock, isRequesting := true)
    ensures e.sent == [Send(Left, Message(Request, n.id, Right, n.clock.ts + 1)),
                       Send(Right, Message(Request, n.id, Left, n.clock.ts + 1))]
  {
    var ticked := n.(clock := LamportClock.Update(n.clock), isRequesting := true);
    Effect(ticked, [Send(Left, Message(Request, n.id, Right, ticked.clock.ts)),
                    Send(Right, Message(Request, n.id, Left, ticked.clock.ts))])
  }

  /**
    The second half of `requestForks`: once both forks are held the wait
    ends, and the node enters the critical section and stops requesting.
   */
  function EnterCriticalSection(n: Node): (r: Node)
    requires n.hasLeftFork && n.hasRightFork
    ensures r.inCriticalSection && !r.isRequesting
    ensures r == n.(inCriticalSection := true, isRequesting := false)
  {
    n.(inCriticalSection := true, isRequesting := false)
  }

  // ---------------------------------------------------------------------
  // Releasing

  /** One REPLY per entry of `q`, in queue order, each sent over the link its direction names. */
  function ReplyAll(n: Node, q: seq<DeferredRequest>): (out: seq<Send>)
    ensures |out| == |q|
    ensures forall i :: 0 <= i < |q| ==> out[i] == Send(q[i].dir, Message(Reply, n.id, Reverse(q[i].dir), n.clock.ts))
    decreases |q|
  {
    if q == [] then [] else [ReplyOn(n, q[0].dir)] + ReplyAll(n, q[1..])
  }

  /**
    `releaseForks`: leave the critical section, answer every deferred
    request oldest first, then drop both forks. The queue ends empty and
    nothing else changes.
   */
  function Release(n: Node): (e: Effect)
    ensures !e.node.inCriticalSection
    ensures !e.node.hasLeftFork && !e.node.hasRightFork
    ensures e.node.deferred == []
    ensures e.node == n.(inCriticalSection := false, hasLeftFork := false, hasRightFork := false, deferred := [])
    ensures |e.sent| == |n.deferred|
    ensures forall i :: 0 <= i < |n.deferred| ==>
              e.sent[i] == Send(n.deferred[i].dir, Message(Reply, n.id, Reverse(n.deferred[i].dir), n.clock.ts))
  {
    var out := n.(inCriticalSection := false);
    Effect(out.(deferred := [], hasLeftFork := false, hasRightFork := false), ReplyAll(out, n.deferred))
  }

  /**
    The drain loop of `releaseForks` itself: poll the queue until it is
    empty, sending a reply for each entry polled.
   */
  method ReleaseForks(n: Node) returns (r: Node, sent: seq<Send>)
    ensures Effect(r, sent) == Release(n)
  {
    r := n.(inCriticalSection := false);
    sent := [];
    while r.deferred != []
      invariant r == n.(inCriticalSection := false, deferred := r.deferred)
      invariant |r.deferred| <= |n.deferred|
      invariant r.deferred == n.deferred[|n.deferred| - |r.deferred|..]
      invariant sent == ReplyAll(r, n.deferred[..|n.deferred| - |r.deferred|])
      decreases |r.deferred|
    {
      var request := r.deferred[0];
      ghost var done := n.deferred[..|n.deferred| - |r.deferred|];
      r := r.(deferred := r.deferred[1..]);
      sent := sent + [ReplyOn(r, request.dir)];
      assert n.deferred[..|n.deferred| - |r.deferred|] == done + [request];
    }
    assert n.deferred[..|n.deferred|] == n.deferred;
    r := r.(hasLeftFork := false, hasRightFork := false);
  }

  // ---------------------------------------------------------------------
  // Receiving

  /**
    The grant test: idle, or requesting with a later own timestamp, or an
    equal timestamp from a lower id (this last case regardless of state).
   */
  predicate Grants(n: Node, m: Message)
  {
    || (!n.inCriticalSection && !n.isRequesting)
    || (n.isRequesting && m.ts < n.timestamp)
    || (m.ts == n.timestamp && m.senderId < n.id)
  }

  /**
    `receiveRequest`: synchronise the clock with the request, then either
    reply at once over the link the request's direction names, or append
    the request to the back of the deferred queue; appending to a full
    queue fails.
   */
  function ReceiveRequest(n: Node, origin: LinkId, m: Message): (r: Outcome)
    ensures r.node.clock == LamportClock.Synchronize(n.clock, m.ts)
    ensures r.node == n.(clock := r.node.clock, deferred := r.node.deferred)
    ensures Grants(n, m) ==>
              && r.Ok?
              && r.node.deferred == n.deferred
              && r.sent == [Send(m.dir, Message(Reply, n.id, Reverse(m.dir), r.node.clock.ts))]
    ensures !Grants(n, m) && |n.deferred| < QueueCapacity ==>
              && r.Ok?
              && r.node.deferred == n.deferred + [DeferredRequest(origin, m.ts, m.dir)]
              && r.sent == []
    ensures !Grants(n, m) && |n.deferred| >= QueueCapacity ==>
              r.Overflow? && r.node.deferred == n.deferred
    ensures Valid(n) ==> Valid(r.node)
  {
    var synced := n.(clock := LamportClock.Synchronize(n.clock, m.ts));
    if Grants(n, m) then
      Ok(synced, [ReplyOn(synced, m.dir)])
    else if |n.deferred| < QueueCapacity then
      Ok(synced.(deferred := n.deferred + [DeferredRequest(origin, m.ts, m.dir)]), [])
    else
      Overflow(synced)
  }

  /** `receiveReply`: a reply tagged left gives the left fork, any other the right fork. */
  function ReceiveReply(n: Node, senderId: int, d: Direction): (r: Node)
    ensures d == Left ==> r.hasLeftFork && r.hasRightFork == n.hasRightFork
    ensures d == Right ==> r.hasRightFork && r.hasLeftFork == n.hasLeftFork
    ensures r == n.(hasLeftFork := r.hasLeftFork, hasRightFork := r.hasRightFork)
  {
    if d == Left then n.(hasLeftFork := true) else n.(hasRightFork := true)
  }

  // ---------------------------------------------------------------------
  // Properties of the protocol as written

  /** A request is granted exactly when the reply goes out; otherwise nothing is sent. */
  lemma GrantIffReply(n: Node, origin: LinkId, m: Message)
    ensures (ReceiveRequest(n, origin, m).Ok? && |ReceiveRequest(n, origin, m).sent| == 1) <==> Grants(n, m)
  {
  }

  /**
    The request timestamp is never written after construction, so every
    node keeps timestamp 0; a requesting node then refuses every request
    stamped above 0, which every request sent by `StartRequest` is.
   */
  lemma RequestingNodeDefersEveryTickedRequest(n: Node, sender: Node)
    requires n.timestamp == 0 && n.isRequesting
    ensures !Grants(n, StartRequest(sender).sent[0].msg)
    ensures !Grants(n, StartRequest(sender).sent[1].msg)
  {
  }

  /**
    Two neighbours that start requesting at the same time each defer the
    other's request: neither reply is sent, so neither can collect both
    forks through the other.
   */
  lemma SimultaneousRequestsBothDefer(a: Node, b: Node, la: LinkId, lb: LinkId)
    requires a.timestamp == 0 && b.timestamp == 0
    requires |a.deferred| < QueueCapacity && |b.deferred| < QueueCapacity
    ensures var ea, eb := StartRequest(a), StartRequest(b);
            && ReceiveRequest(eb.node, lb, ea.sent[1].msg).sent == []
            && ReceiveRequest(ea.node, la, eb.sent[0].msg).sent == []
  {
  }

  /** A node that is neither requesting nor eating grants whatever it receives. */
  lemma IdleNodeGrants(n: Node, origin: LinkId, m: Message)
    requires !n.inCriticalSection && !n.isRequesting
    ensures ReceiveRequest(n, origin, m).Ok?
    ensures ReceiveRequest(n, origin, m).sent == [ReplyOn(ReceiveRequest(n, origin, m).node, m.dir)]
  {
  }

  /** Equal timestamps from a lower id are granted even inside the critical section. */
  lemma TieBreakIsUnguarded(n: Node, m: Message)
    requires m.ts == n.timestamp && m.senderId < n.id
    ensures Grants(n, m)
  {
  }

  /**
    Requests deferred while eating are answered on release in the order
    they arrived, each over the link its direction names.
   */
  lemma DeferredRepliedInArrivalOrder(n: Node, l1: LinkId, m1: Message, l2: LinkId, m2: Message)
    requires n.deferred == [] && !Grants(n, m1) && !Grants(n, m2)
    ensures var o1 := ReceiveRequest(n, l1, m1);
            var o2 := ReceiveRequest(o1.node, l2, m2);
            && o1.Ok? && o1.sent == [] && o2.Ok? && o2.sent == []
            && Release(o2.node).sent == [ReplyOn(o2.node, m1.dir), ReplyOn(o2.node, m2.dir)]
  {
  }

  /**
    One full cycle from idle: request, receive both replies, eat, release.
    With nothing deferred meanwhile the node is idle again with no forks,
    and only its clock has moved on, by one tick.
   */
  lemma FullCycleReturnsToIdle(n: Node, leftId: int, rightId: int)
    requires !n.hasLeftFork && !n.hasRightFork && !n.inCriticalSection && !n.isRequesting
    requires n.deferred == []
    ensures var started := StartRequest(n).node;
            var granted := ReceiveReply(ReceiveReply(started, leftId, Left), rightId, Right);
            var eating := EnterCriticalSection(granted);
            && eating.inCriticalSection
            && Release(eating).sent == []
            && Release(eating).node == n.(clock := LamportClock.Update(n.clock))
  {
  }

  // ---------------------------------------------------------------------
  // Whole lifecycles

  /** A local or inbound event at one node. */
  datatype Event =
    | StartEv
    | EnterEv
    | ReleaseEv
    | RequestEv(origin: LinkId, m: Message)
    | ReplyEv(senderId: int, d: Direction)

  /**
    One event. Entering only happens once both forks are held; before
    that the wait simply continues. An overflowing request leaves the node
    as the failed call left it.
   */
  function Apply(n: Node, ev: Event): (r: Node)
    ensures r.id == n.id && r.timestamp == n.timestamp
    ensures Valid(n) ==> Valid(r)
    ensures r.clock.ts >= n.clock.ts
  {
    match ev
    case StartEv => StartRequest(n).node
    case EnterEv => if n.hasLeftFork && n.hasRightFork then EnterCriticalSection(n) else n
    case ReleaseEv => Release(n).node
    case RequestEv(origin, m) => ReceiveRequest(n, origin, m).node
    case ReplyEv(senderId, d) => ReceiveReply(n, senderId, d)
  }

  function Run(n: Node, evs: seq<Event>): Node
    decreases |evs|
  {
    if evs == [] then n else Run(Apply(n, evs[0]), evs[1..])
  }

  /**
    Along any sequence of events the id and the request timestamp stay
    fixed, the queue stays within capacity and the clock never goes back.
   */
  lemma {:induction false} RunPreserves(n: Node, evs: seq<Event>)
    requires Valid(n)
    ensures Run(n, evs).id == n.id
    ensures Run(n, evs).timestamp == n.timestamp
    ensures Valid(Run(n, evs))
    ensures Run(n, evs).clock.ts >= n.clock.ts
    decreases |evs|
  {
    if evs != [] {
      RunPreserves(Apply(n, evs[0]), evs[1..]);
    }
  }

  /** Every node reachable from a new one still has request timestamp 0. */
  lemma ReachableTimestampIsZero(id: int, evs: seq<Event>)
    ensures Run(New(id), evs).timestamp == 0
    ensures Valid(Run(New(id), evs))
  {
    RunPreserves(New(id), evs);
  }
}

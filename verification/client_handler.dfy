/**
  The inbound side of one link: messages arrive in order and each is
  routed by its kind to the philosopher's handler. Counter messages go to
  a handler whose behaviour is a parameter here.
 */
module ClientHandler {
  import opened Messages
  import Philosopher

  /** The transition a COUNTER message causes; its behaviour is not part of this model. */
  type CounterHandler = (Philosopher.Node, Message) -> Philosopher.Node

  /**
    Routes one message: REQUEST to `receiveRequest` with the link it came
    in on, REPLY to `receiveReply` with its sender and direction, COUNTER to
    the counter handler; the two ping kinds match no branch and change
    nothing.
   */
  function Step(n: Philosopher.Node, link: LinkId, m: Message, onCounter: CounterHandler): (r: Philosopher.Outcome)
    ensures m.kind == Request ==> r == Philosopher.ReceiveRequest(n, link, m)
    ensures m.kind == Reply ==> r == Philosopher.Ok(Philosopher.ReceiveReply(n, m.senderId, m.dir), [])
    ensures m.kind == Counter ==> r == Philosopher.Ok(onCounter(n, m), [])
    ensures m.kind == PingSent || m.kind == PingReceived ==> r == Philosopher.Ok(n, [])
    ensures r.Overflow? ==> m.kind == Request
  {
    match m.kind
    case Request => Philosopher.ReceiveRequest(n, link, m)
    case Reply => Philosopher.Ok(Philosopher.ReceiveReply(n, m.senderId, m.dir), [])
    case Counter => Philosopher.Ok(onCounter(n, m), [])
    case PingSent => Philosopher.Ok(n, [])
    case PingReceived => Philosopher.Ok(n, [])
  }

  /**
    What one link's handler did with its input: the node afterwards, all
    that was sent, how many messages were read, and whether it stopped on
    a failed request rather than at the end of the stream.
   */
  datatype LinkRun = LinkRun(node: Philosopher.Node, sent: seq<Send>, consumed: nat, failed: bool)

  /**
    The receive loop: messages are handled one at a time in arrival order
    until the stream ends; a request that overflows the deferred queue
    ends the loop, and nothing after it is read.
   */
  function HandleLink(n: Philosopher.Node, link: LinkId, msgs: seq<Message>, onCounter: CounterHandler): (r: LinkRun)
    ensures r.consumed <= |msgs|
    ensures !r.failed ==> r.consumed == |msgs|
    ensures r.failed ==> 0 < r.consumed && msgs[r.consumed - 1].kind == Request
    decreases |msgs|
  {
    if msgs == [] then LinkRun(n, [], 0, false)
    else
      match Step(n, link, msgs[0], onCounter)
      case Overflow(next) => LinkRun(next, [], 1, true)
      case Ok(next, out) =>
        var rest := HandleLink(next, link, msgs[1..], onCounter);
        LinkRun(rest.node, out + rest.sent, rest.consumed + 1, rest.failed)
  }

  lemma ConcatAssoc(x: seq<Send>, y: seq<Send>, z: seq<Send>)
    ensures x + (y + z) == (x + y) + z
  {
  }

  /** One handled message followed by the rest of the stream. */
  lemma HandleLinkUnfold(n: Philosopher.Node, link: LinkId, msgs: seq<Message>, onCounter: CounterHandler)
    requires msgs != [] && Step(n, link, msgs[0], onCounter).Ok?
    ensures var s := Step(n, link, msgs[0], onCounter);
            var tail := HandleLink(s.node, link, msgs[1..], onCounter);
            HandleLink(n, link, msgs, onCounter) == LinkRun(tail.node, s.sent + tail.sent, tail.consumed + 1, tail.failed)
  {
  }

  /**
    Handling is sequential: reading `a` and then `b` is reading `a` to the
    end and carrying on with `b` from the node `a` left behind.
   */
  lemma {:induction false} HandleLinkAppend(n: Philosopher.Node, link: LinkId, a: seq<Message>, b: seq<Message>, onCounter: CounterHandler)
    requires !HandleLink(n, link, a, onCounter).failed
    ensures var ra := HandleLink(n, link, a, onCounter);
            var rb := HandleLink(ra.node, link, b, onCounter);
            HandleLink(n, link, a + b, onCounter) == LinkRun(rb.node, ra.sent + rb.sent, |a| + rb.consumed, rb.failed)
    decreases |a|
  {
    if a == [] {
      assert a + b == b;
    } else {
      var s := Step(n, link, a[0], onCounter);
      assert s.Ok?;
      HandleLinkUnfold(n, link, a, onCounter);
      var tail := HandleLink(s.node, link, a[1..], onCounter);
      var ra := LinkRun(tail.node, s.sent + tail.sent, tail.consumed + 1, tail.failed);
      assert HandleLink(n, link, a, onCounter) == ra;
      HandleLinkAppend(s.node, link, a[1..], b, onCounter);
      var rb := HandleLink(tail.node, link, b, onCounter);
      assert (a + b)[0] == a[0];
      assert (a + b)[1..] == a[1..] + b;
      assert HandleLink(s.node, link, (a + b)[1..], onCounter)
          == LinkRun(rb.node, tail.sent + rb.sent, |a[1..]| + rb.consumed, rb.failed);
      HandleLinkUnfold(n, link, a + b, onCounter);
      ConcatAssoc(s.sent, tail.sent, rb.sent);
      assert HandleLink(n, link, a + b, onCounter) == LinkRun(rb.node, ra.sent + rb.sent, |a| + rb.consumed, rb.failed);
    }
  }

  /** Whether every message is a ping. */
  predicate AllPings(msgs: seq<Message>)
  {
    forall i :: 0 <= i < |msgs| ==> msgs[i].kind == PingSent || msgs[i].kind == PingReceived
  }

  /** A stream of pings leaves the node as it was and sends nothing. */
  lemma {:induction false} PingsChangeNothing(n: Philosopher.Node, link: LinkId, msgs: seq<Message>, onCounter: CounterHandler)
    requires AllPings(msgs)
    ensures HandleLink(n, link, msgs, onCounter) == LinkRun(n, [], |msgs|, false)
    decreases |msgs|
  {
    if msgs != [] {
      assert AllPings(msgs[1..]) by {
        forall i | 0 <= i < |msgs[1..]|
          ensures msgs[1..][i].kind == PingSent || msgs[1..][i].kind == PingReceived
        {
          assert msgs[1..][i] == msgs[i + 1];
        }
      }
      PingsChangeNothing(n, link, msgs[1..], onCounter);
    }
  }

  /** Whether no message is a request. */
  predicate NoRequests(msgs: seq<Message>)
  {
    forall i :: 0 <= i < |msgs| ==> msgs[i].kind != Request
  }

  /**
    Without requests nothing can fail or be sent (replies, counters and
    pings send nothing), and the whole stream is read.
   */
  lemma {:induction false} NoRequestsSendNothing(n: Philosopher.Node, link: LinkId, msgs: seq<Message>, onCounter: CounterHandler)
    requires NoRequests(msgs)
    ensures !HandleLink(n, link, msgs, onCounter).failed
    ensures HandleLink(n, link, msgs, onCounter).consumed == |msgs|
    ensures HandleLink(n, link, msgs, onCounter).sent == []
    decreases |msgs|
  {
    if msgs != [] {
      assert NoRequests(msgs[1..]) by {
        forall i | 0 <= i < |msgs[1..]|
          ensures msgs[1..][i].kind != Request
        {
          assert msgs[1..][i] == msgs[i + 1];
        }
      }
      NoRequestsSendNothing(Step(n, link, msgs[0], onCounter).node, link, msgs[1..], onCounter);
    }
  }
}

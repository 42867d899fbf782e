/**
  The vocabulary the philosophers exchange: directions on the ring, the
  kinds of message, a message record, a deferred request and an outbound
  send record.
 */
module Messages {

  /** Which neighbour link a message concerns. */
  datatype Direction = Left | Right

  /** The five kinds of message a philosopher can receive. */
  datatype MessageType = Request | Reply | Counter | PingSent | PingReceived

  /**
    A message: its kind, the id of the philosopher that sent it, the
    direction it is tagged with and the sender's logical timestamp.
   */
  datatype Message = Message(kind: MessageType, senderId: int, dir: Direction, ts: int)

  /** Identifies one accepted inbound connection. */
  type LinkId = nat

  /**
    A request that could not be granted on arrival: the connection it came
    in on, its timestamp and its direction tag.
   */
  datatype DeferredRequest = DeferredRequest(origin: LinkId, ts: int, dir: Direction)

  /** One message written to the outbound link towards the neighbour on `link`. */
  datatype Send = Send(link: Direction, msg: Message)

  /**
    The three-argument message constructor: no timestamp is given, so the
    field keeps its default value 0.
   */
  function Untimed(kind: MessageType, senderId: int, dir: Direction): (m: Message)
    ensures m.kind == kind && m.senderId == senderId && m.dir == dir
    ensures m.ts == 0
  {
    Message(kind, senderId, dir, 0)
  }
}

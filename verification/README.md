# Distributed dining philosophers: per-node coordination logic in Dafny

This project models the logic each philosopher process of the
distributed dining-philosophers ring runs for itself, written as pure
transitions on immutable values:

- **LamportClock** (`lamport_clock.dfy`): the Lamport clock. It covers the tick
  (`update`), the receive-synchronisation (`synchronize`) and the three-way
  `compare`. It also runs any sequence of clock calls.
- **GCounter** (`gcounter.dfy`): the grow-only counter. Each philosopher id
  has a count, `increment` raises the owner's own entry, `query` sums all
  entries and `merge` takes the pointwise maximum. `query` and `merge` are
  the source's loops, written as methods over the map's entries.
- **Messages** (`messages.dfy`): the two directions, the five message kinds,
  the message record, the deferred request, and the `Send` record. A `Send`
  stands for one message written to an outbound neighbour link.
- **Philosopher** (`philosopher.dfy`): the mutual-exclusion state machine.
  The node record holds the id, the request `timestamp`, the clock, both
  fork flags, the critical-section and requesting flags, and the FIFO queue
  of deferred requests (capacity 2). Each operation returns the new node
  and the messages it sends, in order. `requestForks` is split at its
  busy-wait into `StartRequest` and `EnterCriticalSection`. The second one
  requires both forks, which is exactly the wait loop's exit condition.
- **ClientHandler** (`client_handler.dfy`): the receive loop of one inbound
  link. `Step` routes one message by its kind. `HandleLink` folds `Step`
  over the messages in arrival order. It stops at the end of the input, or
  at a request that overflows the deferred queue.
- **GenerateCompose** (`generate_compose.dfy`): the ring's port arithmetic.
  Instance `i` of `n` listens on `serverPort + i`. Its left and right
  neighbours wrap around at both ends.

Reconciling the source files:

- Directions are the two-valued `Direction` datatype. The source's string
  test `direction.equals("left")` becomes `d == Left`.
- A sent message carries the sender's clock value at the moment of sending.
  This is because the source hands its clock object to the message
  constructor (`Philosopher.java:172,185`).
- A deferred request keeps the inbound connection it arrived on as an
  opaque `LinkId`. It is answered over the outbound link that its direction
  names, as the source does.

Observations about the code as written. Each one is stated in the contract of the member named:

- The request `timestamp` field is set to 0 in the constructor and never
  written again, because the increments in `requestForks` are commented
  out. So every reachable node has timestamp 0 (`ReachableTimestampIsZero`).
  A requesting node therefore refuses every request that `StartRequest`
  stamps, since such a request is stamped at least 1
  (`RequestingNodeDefersEveryTickedRequest`).
  Two neighbours that start requesting together each defer the other's
  request (`SimultaneousRequestsBothDefer`).
- The tie-break disjunct of the grant test is not guarded by
  `isRequesting`. An equal timestamp from a lower id is granted even inside
  the critical section (`TieBreakIsUnguarded`).
- Appending to a full deferred queue throws after the clock has already
  been synchronised. The exception ends that link's receive loop
  (`Outcome.Overflow`, `HandleLink`).
- The code has no reply-retention flag and no ping liveness monitor.
  `requestForks` always sends both requests, and ping messages match no
  branch of the dispatch. The model follows the code in both places.

## Model

| member | source | states |
|---|---|---|
| `Messages.Untimed` | src/main/java/Message.java:46-50 | the three-argument constructor keeps kind, sender and direction and leaves the timestamp at 0 |
| `LamportClock.New` | src/main/java/LamportClock.java:16-18 | a new clock starts at 0 |
| `LamportClock.Update` | src/main/java/LamportClock.java:32-34 | a tick raises the timestamp by exactly one |
| `LamportClock.Synchronize` | src/main/java/LamportClock.java:41-45 | after synchronising, the timestamp is one more than the larger of the old and received values, so it exceeds both |
| `LamportClock.Compare` | src/main/java/LamportClock.java:47-55 | the result is -1, 0 or 1, exactly as the clock is below, equal to or above the other timestamp |
| `LamportClock.RunRaises` | src/main/java/LamportClock.java:32-45 | any sequence of tick/synchronise calls raises the timestamp by at least the number of calls |
| `LamportClock.RunMonotone` | src/main/java/LamportClock.java:32-45 | along any call sequence the timestamp never decreases from one prefix to a longer one |
| `GCounter.New` | src/main/java/GCounter.java:23-26 | a new counter has the given owner and no entries, and its sum is 0 |
| `GCounter.NewQueryIsZero` | src/main/java/GCounter.java:40-46 | querying a fresh counter gives 0 |
| `GCounter.Increment` | src/main/java/GCounter.java:31-33 | only the owner's entry changes; it rises by one from its old value, or from 0 if absent; the owner is unchanged |
| `GCounter.IncrementQuery` | src/main/java/GCounter.java:31-46 | after an increment the query is exactly one higher |
| `GCounter.Query` | src/main/java/GCounter.java:40-46 | the loop over the entries returns the sum of all counts, whatever order it visits them in |
| `GCounter.MergeMaps` | src/main/java/GCounter.java:53-59 | merged keys are the union; each key of the other map gets the max of the local count (0 if absent) and the other count; other keys keep their count |
| `GCounter.Merge` | src/main/java/GCounter.java:53-59 | merging keeps the local owner and combines the maps pointwise |
| `GCounter.MergeInto` | src/main/java/GCounter.java:53-59 | the entry-by-entry merge loop yields exactly the pointwise-max counter |
| `GCounter.MergeGrowOnly` | src/main/java/GCounter.java:53-59 | after a merge every entry of either side is present and not lower, and the query has not gone down |
| `GCounter.SumMonotone` | src/main/java/GCounter.java:40-46 | a map that dominates another entry by entry has at least its sum |
| `GCounter.MergeIsLeastUpperBound` | src/main/java/GCounter.java:53-59 | any map dominating both inputs dominates their merge |
| `GCounter.MergeIdempotent` | src/main/java/GCounter.java:53-59 | merging a map with an equal map changes nothing |
| `GCounter.MergeCommutative` | src/main/java/GCounter.java:53-59 | merge(a, b) equals merge(b, a) |
| `GCounter.MergeAssociative` | src/main/java/GCounter.java:53-59 | merge is associative |
| `Philosopher.New` | src/main/java/Philosopher.java:29-36 | a new node holds no fork, is neither eating nor requesting, has timestamp and clock 0 and an empty queue |
| `Philosopher.Reverse` | src/main/java/Philosopher.java:127-133 | reversing always gives the other direction |
| `Philosopher.ReverseInvolution` | src/main/java/Philosopher.java:127-133 | reversing twice is the identity |
| `Philosopher.StartRequest` | src/main/java/Philosopher.java:58-69 | the clock rises by one and the node is requesting; a REQUEST tagged right goes on the left link and one tagged left on the right link, both stamped with the new clock; nothing else changes |
| `Philosopher.EnterCriticalSection` | src/main/java/Philosopher.java:72-85 | only with both forks held does the node enter the critical section, and it stops requesting |
| `Philosopher.ReplyAll` | src/main/java/Philosopher.java:113-121 | one REPLY per deferred entry, in queue order, each on the entry's direction link and tagged with its reverse |
| `Philosopher.Release` | src/main/java/Philosopher.java:92-125 | the node leaves the critical section, answers every deferred request oldest first, and ends with an empty queue and no forks |
| `Philosopher.ReleaseForks` | src/main/java/Philosopher.java:113-124 | the poll-until-empty loop produces exactly the release described above |
| `Philosopher.ReceiveRequest` | src/main/java/Philosopher.java:135-155 | the clock is always synchronised with the request; a granted request sends one REPLY on link d tagged reverse(d) and keeps the queue; a refused one is appended at the back and sends nothing; a full queue fails; no other field changes |
| `Philosopher.GrantIffReply` | src/main/java/Philosopher.java:138-152 | a reply is sent exactly when the three-way grant test holds |
| `Philosopher.IdleNodeGrants` | src/main/java/Philosopher.java:138-148 | a node neither eating nor requesting answers any request at once |
| `Philosopher.TieBreakIsUnguarded` | src/main/java/Philosopher.java:138 | an equal timestamp from a lower id is granted whatever the node's state |
| `Philosopher.RequestingNodeDefersEveryTickedRequest` | src/main/java/Philosopher.java:138 | with the request timestamp still 0, a requesting node refuses every request `StartRequest` sends |
| `Philosopher.SimultaneousRequestsBothDefer` | src/main/java/Philosopher.java:135-155 | two neighbours that start requesting together each defer the other's request and send no reply |
| `Philosopher.DeferredRepliedInArrivalOrder` | src/main/java/Philosopher.java:113-121 | two requests refused while eating are queued, send nothing, and are answered on release in arrival order |
| `Philosopher.FullCycleReturnsToIdle` | src/main/java/Philosopher.java:58-124 | request, both replies, eat and release with nothing deferred leave the node idle without forks, with only the clock one tick later |
| `Philosopher.ReceiveReply` | src/main/java/Philosopher.java:157-165 | a reply tagged left sets the left fork, otherwise the right fork; nothing else changes |
| `Philosopher.Apply` | src/main/java/Philosopher.java:58-165 | no event changes the id or the request timestamp, the queue never exceeds its capacity, and the clock never goes back |
| `Philosopher.RunPreserves` | src/main/java/Philosopher.java:58-165 | along any sequence of events the id and timestamp stay fixed, the queue stays within capacity and the clock does not decrease |
| `Philosopher.ReachableTimestampIsZero` | src/main/java/Philosopher.java:29-36 | every node reachable from a new one has request timestamp 0 and a queue within capacity |
| `ClientHandler.Step` | src/main/java/ClientHandler.java:43-49 | REQUEST is handled exactly by receiveRequest with the arrival link, REPLY by receiveReply with sender and direction, COUNTER by the counter handler; pings change nothing; only a request can fail |
| `ClientHandler.HandleLink` | src/main/java/ClientHandler.java:36-53 | the loop reads at most the whole input, reads all of it unless it failed, and a failure is always on a request |
| `ClientHandler.HandleLinkAppend` | src/main/java/ClientHandler.java:36-53 | messages are handled one at a time in arrival order: handling a + b is handling a, then b from where a left off |
| `ClientHandler.PingsChangeNothing` | src/main/java/ClientHandler.java:43-49 | a stream of pings is read to the end and leaves the node unchanged with nothing sent |
| `ClientHandler.NoRequestsSendNothing` | src/main/java/ClientHandler.java:43-49 | without requests the loop never fails, reads everything and sends nothing |
| `GenerateCompose.Ports` | src/main/java/GenerateCompose.java:20-31 | instance i listens on serverPort + i; both neighbour ports lie in serverPort+1 .. serverPort+n and differ from its own unless n = 1 |
| `GenerateCompose.PortsAreModular` | src/main/java/GenerateCompose.java:28-31 | the left neighbour is instance ((i-2) mod n)+1 and the right one instance (i mod n)+1, so 1 wraps to n and n wraps to 1 |
| `GenerateCompose.RingIsConsistent` | src/main/java/GenerateCompose.java:20-31 | j's port is i's right neighbour exactly when i's port is j's left neighbour |
| `GenerateCompose.ListenPortsDistinct` | src/main/java/GenerateCompose.java:20-21 | distinct instances listen on distinct ports |
| `GenerateCompose.Generate` | src/main/java/GenerateCompose.java:6-31 | other than two arguments gives the usage error and no entries; otherwise one entry per instance 1..n in order, each with the ports above |

## Left out

- Sockets and object streams are replaced by the `Send` output records and the inbound message sequence. This covers the bodies of `sendReply`/`sendRequest` and the stream reading and closing in the receive loop. It also covers the read and class-resolution errors that end that loop.
- Connection retry loops, process exit, the server's accept loop, thread pool and latch, and the bootstrap entry points are left out. They are I/O and thread plumbing.
- The random think/eat sleeps and the one-second polling sleep are left out. They are timing only; the wait is the precondition of `EnterCriticalSection`.
- Locks, `synchronized` and the atomic integer are left out. The model is sequential, one transition at a time, and does not cover races between threads.
- Philosopher.StartRequest: the clock tick and the setting of the requesting flag are one transition here. In the source they are two statements outside one lock.
- The body of `receiveCounter` is not part of this model. A COUNTER message applies a caller-supplied transition `(Node, Message) -> Node`.
- 32-bit integer overflow is not modelled: clock, counters and ports are unbounded integers. The source's `int` would wrap after 2^31 - 1.
- GenerateCompose.Generate: its arguments are taken as already-parsed integers. A non-numeric argument makes `Integer.parseInt` throw, and that case is not modelled.
- The YAML text written by the generator, the container port mapping and the unused `rightNeighborPort` variable are left out.
- `getTimestamp` and the queue's `toString` are left out, and so is logging. Reading a clock is a field access on a value here, so `getTimestamp` and `compare` cannot change it.
- Test-only behaviour of a constructor and methods absent from this `Philosopher` is left out: id and port validation, pings and counter sending.
- Ring-wide properties are left out: safety across two nodes, liveness and gossip convergence. They need a model of several interleaved nodes, which this per-node model does not have.

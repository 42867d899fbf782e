/**
  The port layout of a ring of `n` instances started from one base port:
  instance `i` (1 to n) listens on the base port plus `i`, and talks to
  the previous and next instance, wrapping around at both ends.
 */
module GenerateCompose {

  /** One instance's index, listening port and its two neighbours' ports. */
  datatype Instance = Instance(index: int, listenPort: int, leftPort: int, rightPort: int)

  /** Either the usage error (wrong argument count, nothing generated) or one entry per instance. */
  datatype Compose = UsageError | Services(instances: seq<Instance>)

  /**
    The ports of instance `i` of `n`: it listens on `serverPort + i`; its
    left neighbour is the previous instance, or the last one for instance
    1; its right neighbour is the next instance, or the first one for
    instance `n`. All of them lie among the ring's listening ports.
   */
  function Ports(serverPort: int, n: int, i: int): (r: Instance)
    requires 1 <= i <= n
    ensures r.index == i && r.listenPort == serverPort + i
    ensures serverPort + 1 <= r.leftPort <= serverPort + n
    ensures serverPort + 1 <= r.rightPort <= serverPort + n
    ensures r.leftPort != r.listenPort || n == 1
    ensures r.rightPort != r.listenPort || n == 1
  {
    var listen := serverPort + i;
    var isFirst := i == 1;
    var isLast := i == n;
    Instance(i, listen,
             if isFirst then listen + n - 1 else listen - 1,
             if isLast then serverPort + 1 else listen + 1)
  }

  /**
    The neighbours are the instances one step back and one step forward
    around the ring, counting modulo `n`.
   */
  lemma PortsAreModular(serverPort: int, n: int, i: int)
    requires 1 <= i <= n
    ensures Ports(serverPort, n, i).leftPort == serverPort + (i - 2) % n + 1
    ensures Ports(serverPort, n, i).rightPort == serverPort + i % n + 1
  {
  }

  /**
    The ring is consistent: `j` is `i`'s right neighbour exactly when `i`
    is `j`'s left neighbour.
   */
  lemma RingIsConsistent(serverPort: int, n: int, i: int, j: int)
    requires 1 <= i <= n && 1 <= j <= n
    ensures Ports(serverPort, n, i).rightPort == Ports(serverPort, n, j).listenPort
        <==> Ports(serverPort, n, j).leftPort == Ports(serverPort, n, i).listenPort
  {
  }

  /** Different instances listen on different ports. */
  lemma ListenPortsDistinct(serverPort: int, n: int, i: int, j: int)
    requires 1 <= i <= n && 1 <= j <= n && i != j
    ensures Ports(serverPort, n, i).listenPort != Ports(serverPort, n, j).listenPort
  {
  }

  /**
    The generator: exactly two arguments, the instance count and the base
    port, or the usage error; then one entry per instance 1 to n, in order,
    computed with the first/last flags of the original loop.
   */
  method Generate(args: seq<int>) returns (r: Compose)
    ensures |args| != 2 <==> r == UsageError
    ensures |args| == 2 ==> |r.instances| == (if args[0] > 0 then args[0] else 0)
    ensures |args| == 2 ==> forall k :: 0 <= k < |r.instances| ==> r.instances[k] == Ports(args[1], args[0], k + 1)
  {
    if |args| != 2 {
      return UsageError;
    }
    var n := args[0];
    var serverPort := args[1];
    var isFirst := true;
    var isLast := false;
    var out: seq<Instance> := [];
    var i := 1;
    while i <= n
      invariant 1 <= i <= (if n >= 1 then n + 1 else 1)
      invariant |out| == i - 1
      invariant isFirst <==> i == 1
      invariant isLast <==> (n >= 1 && i == n + 1)
      invariant forall k :: 0 <= k < |out| ==> out[k] == Ports(serverPort, n, k + 1)
    {
      var listen := serverPort + i;
      if i == n {
        isLast := true;
      }
      var left := if isFirst then listen + n - 1 else listen - 1;
      var right := if isLast then serverPort + 1 else listen + 1;
      out := out + [Instance(i, listen, left, right)];
      isFirst := false;
      i := i + 1;
    }
    r := Services(out);
  }
}

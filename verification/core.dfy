/** The process-wide state of the packet stack and SOCKS handler libraries, as
    the tunnel manager consumes it. The stack itself, the handlers' relaying and
    the relay goroutine are opaque: the model only records which handlers and
    which output callback are registered, how often each stack and device has
    been closed, and the ordered log of every side effect issued.
 */
module Core {
  import opened Base

  /** Opaque identity of one lwIP stack instance. */
  type StackId = nat
  /** Opaque identity of one wrapped TUN device (an `*os.File`). */
  type DevId = nat

  /** `time.Second`: a `time.Duration` counts nanoseconds. */
  const Second: int := 1_000_000_000

  /** A SOCKS5 TCP handler, as built by `socks.NewTCPHandler(host, port)`. It
      carries no timeout of its own. */
  datatype TcpHandler = TcpHandler(proxyHost: string, proxyPort: uint16)

  /** A SOCKS5 UDP handler, as built by `socks.NewUDPHandler(host, port, timeout)`. */
  datatype UdpHandler = UdpHandler(proxyHost: string, proxyPort: uint16, sessionTimeout: int)

  /** One observable side effect on the process or on a resource. */
  datatype Effect =
    | CreateStack(stack: StackId)
    | RegisterOutput(dev: DevId)
    | SetTcp(tcp: TcpHandler)
    | SetUdp(udp: UdpHandler)
    | SpawnRelay(stack: StackId, dev: DevId, bufferSize: nat)
    | ClearTcp
    | ClearUdp
    | CloseStack(stack: StackId)
    | CloseDev(dev: DevId)

  /** The process-wide slots (one TCP handler, one UDP handler, one output
      callback, identified by the device it writes to) and the close counters. */
  datatype Globals = Globals(
    tcp: Option<TcpHandler>,
    udp: Option<UdpHandler>,
    output: Option<DevId>,
    stackCloses: map<StackId, nat>,
    devCloses: map<DevId, nat>)

  /** The state of a process in which nothing has been registered or closed. */
  const Pristine: Globals := Globals(None, None, None, map[], map[])

  /** A counter read from a map, absent keys counting zero. */
  function Lookup(m: map<nat, nat>, k: nat): nat
  {
    if k in m then m[k] else 0
  }

  /** Adds one to the counter of `k`. */
  function Bump(m: map<nat, nat>, k: nat): (r: map<nat, nat>)
    ensures Lookup(r, k) == Lookup(m, k) + 1
    ensures forall j :: j != k ==> Lookup(r, j) == Lookup(m, j)
  {
    m[k := Lookup(m, k) + 1]
  }

  /** What one effect does to the process-wide state. */
  function Apply(g: Globals, e: Effect): Globals
  {
    match e
    case CreateStack(_) => g
    case RegisterOutput(d) => g.(output := Some(d))
    case SetTcp(h) => g.(tcp := Some(h))
    case SetUdp(h) => g.(udp := Some(h))
    case SpawnRelay(_, _, _) => g
    case ClearTcp => g.(tcp := None)
    case ClearUdp => g.(udp := None)
    case CloseStack(s) => g.(stackCloses := Bump(g.stackCloses, s))
    case CloseDev(d) => g.(devCloses := Bump(g.devCloses, d))
  }

  /** Reference semantics of a log: the state reached by replaying it from a
      pristine process. */
  function Replay(log: seq<Effect>): Globals
  {
    if |log| == 0 then Pristine
    else Apply(Replay(log[..|log| - 1]), log[|log| - 1])
  }

  /** Number of occurrences of `e` in `log`. */
  function Count(log: seq<Effect>, e: Effect): nat
  {
    if |log| == 0 then 0
    else Count(log[..|log| - 1], e) + (if log[|log| - 1] == e then 1 else 0)
  }

  /** Replaying one more effect is applying it to the replay of the prefix. */
  lemma ReplaySnoc(log: seq<Effect>, e: Effect)
    ensures Replay(log + [e]) == Apply(Replay(log), e)
  {
    assert (log + [e])[..|log|] == log;
  }

  /** Counting over a concatenation adds up. */
  lemma {:induction false} CountAppend(a: seq<Effect>, b: seq<Effect>, e: Effect)
    ensures Count(a + b, e) == Count(a, e) + Count(b, e)
    decreases |b|
  {
    if |b| == 0 {
      assert a + b == a;
    } else {
      var b' := b[..|b| - 1];
      assert (a + b)[..|a + b| - 1] == a + b';
      CountAppend(a, b', e);
    }
  }

  /** `Count` is the multiplicity of the effect in the log's multiset. */
  lemma {:induction false} CountIsMultiplicity(log: seq<Effect>, e: Effect)
    ensures Count(log, e) == multiset(log)[e]
    decreases |log|
  {
    if |log| > 0 {
      var init := log[..|log| - 1];
      assert log == init + [log[|log| - 1]];
      CountIsMultiplicity(init, e);
    }
  }

  /** The replayed close counter of a stack is the number of times its close
      appears in the log: counters and log never disagree. */
  lemma {:induction false} ReplayCountsStackCloses(log: seq<Effect>, s: StackId)
    ensures Lookup(Replay(log).stackCloses, s) == Count(log, CloseStack(s))
    decreases |log|
  {
    if |log| > 0 {
      ReplayCountsStackCloses(log[..|log| - 1], s);
    }
  }

  /** The same for devices. */
  lemma {:induction false} ReplayCountsDevCloses(log: seq<Effect>, d: DevId)
    ensures Lookup(Replay(log).devCloses, d) == Count(log, CloseDev(d))
    decreases |log|
  {
    if |log| > 0 {
      ReplayCountsDevCloses(log[..|log| - 1], d);
    }
  }
}

/** The tunnel lifecycle manager of mobile/mobile.go: `StartSocksTunnel` wires a
    TUN descriptor to a SOCKS5 proxy by creating a stack, registering the output
    callback and the TCP/UDP handlers and spawning the relay; `StopTunnel`
    unregisters the handlers and closes the stack and the device.

    The model is a pure state machine over a `World`: the process-wide state of
    the stack library, a heap of tunnel handles (Go pointers are indices into
    it, nil is `None`), fresh-identity counters and the effect log.
 */
module Mobile {
  import opened Base
  import opened Core

  /** The dial timeout declared next to the UDP timeout; no handler receives it. */
  const DialTimeout: int := 5 * Second
  /** The UDP session timeout given to the UDP handler. */
  const UdpTimeout: int := 60 * Second
  /** Size of the buffer the relay goroutine copies through. */
  const Mtu: nat := 1500
  /** Largest port the endpoint check admits. */
  const MaxPort: int := 65535

  /** `TunnelHandle`: the `started` flag and the stack and device it owns
      (either may be nil in a zero-valued handle). */
  datatype Handle = Handle(started: bool, stack: Option<StackId>, dev: Option<DevId>)

  /** A non-nil `*TunnelHandle`: an index into `World.handles`. */
  type HandleRef = nat

  datatype World = World(
    g: Globals,
    handles: seq<Handle>,
    nextStack: StackId,
    nextDev: DevId,
    log: seq<Effect>)

  /** The process before any tunnel was started. */
  const Init: World := World(Pristine, [], 0, 0, [])

  datatype StartError =
    | InvalidEndpoint(host: string, port: int)
    | BadDescriptor(fd: int)

  datatype StartOutcome = StartOutcome(world: World, result: Result<HandleRef, StartError>)

  /** The endpoint the tunnel accepts: a non-empty host and a port in [1, 65535]. */
  predicate ValidEndpoint(host: string, port: int)
  {
    host != [] && 1 <= port <= MaxPort
  }

  /** Issues one side effect: it takes effect on the process-wide state and is logged. */
  function Do(w: World, e: Effect): World
  {
    w.(g := Apply(w.g, e), log := w.log + [e])
  }

  /** The effects a successful start issues, in order, for the given stack,
      device and endpoint (the port already known to fit in 16 bits). */
  function StartTrace(s: StackId, d: DevId, host: string, port: uint16): seq<Effect>
  {
    [CreateStack(s), RegisterOutput(d),
     SetTcp(TcpHandler(host, port)), SetUdp(UdpHandler(host, port, UdpTimeout)),
     SpawnRelay(s, d, Mtu)]
  }

  /** The effects a stop of a started handle issues, in order. */
  function StopTrace(hd: Handle): seq<Effect>
  {
    [ClearTcp, ClearUdp]
    + (if hd.stack.Some? then [CloseStack(hd.stack.value)] else [])
    + (if hd.dev.Some? then [CloseDev(hd.dev.value)] else [])
  }

  /** `StartSocksTunnel(fd, host, port)`. `wrapOk` is whether `os.NewFile`
      returns a file for `fd`; the model does not decide it. */
  function StartSocksTunnel(w: World, fd: int, host: string, port: int, wrapOk: bool): (r: StartOutcome)
    // An error exactly for a bad endpoint or a descriptor that cannot be wrapped ...
    ensures r.result.Failure? <==> !ValidEndpoint(host, port) || !wrapOk
    ensures !ValidEndpoint(host, port) ==> r.result == Failure(InvalidEndpoint(host, port))
    ensures ValidEndpoint(host, port) && !wrapOk ==> r.result == Failure(BadDescriptor(fd))
    // ... and then nothing at all happened: no effect, no slot, no handle.
    ensures r.result.Failure? ==> r.world == w
    // On success a new started handle owning a fresh stack and device ...
    ensures ValidEndpoint(host, port) && wrapOk ==>
      && r.result.value == |w.handles|
      && r.world.handles == w.handles + [Handle(true, Some(w.nextStack), Some(w.nextDev))]
      && r.world.nextStack == w.nextStack + 1
      && r.world.nextDev == w.nextDev + 1
    // ... created after exactly these effects, in this order, with the port unchanged ...
    ensures ValidEndpoint(host, port) && wrapOk ==>
      r.world.log == w.log + StartTrace(w.nextStack, w.nextDev, host, port as uint16)
    // ... leaving both slots holding handlers for exactly this endpoint and the
    // output callback writing to the new device; nothing is closed.
    ensures ValidEndpoint(host, port) && wrapOk ==>
      && r.world.g.tcp == Some(TcpHandler(host, port as uint16))
      && r.world.g.udp == Some(UdpHandler(host, port as uint16, UdpTimeout))
      && r.world.g.output == Some(w.nextDev)
      && r.world.g.stackCloses == w.g.stackCloses
      && r.world.g.devCloses == w.g.devCloses
  {
    if host == [] || port <= 0 || port > 65535 then
      StartOutcome(w, Failure(InvalidEndpoint(host, port)))
    else if !wrapOk then
      StartOutcome(w, Failure(BadDescriptor(fd)))
    else
      var f := w.nextDev;
      var stack := w.nextStack;
      var w0 := w.(nextDev := f + 1, nextStack := stack + 1);
      var w1 := Do(w0, CreateStack(stack));
      var w2 := Do(w1, RegisterOutput(f));
      var tcpHandler := TcpHandler(host, Narrow(port));
      var udpHandler := UdpHandler(host, Narrow(port), UdpTimeout);
      var w3 := Do(Do(w2, SetTcp(tcpHandler)), SetUdp(udpHandler));
      var w4 := Do(w3, SpawnRelay(stack, f, Mtu));
      StartOutcome(w4.(handles := w4.handles + [Handle(true, Some(stack), Some(f))]),
                   Success(|w4.handles|))
  }

  /** `StopTunnel(h)`; a non-nil pointer always refers to an allocated handle. */
  function StopTunnel(w: World, h: Option<HandleRef>): (r: World)
    requires h.Some? ==> h.value < |w.handles|
    // A nil or stopped handle: nothing changes.
    ensures h.None? || !w.handles[h.value].started ==> r == w
    // A started handle: exactly its teardown effects, in order ...
    ensures h.Some? && w.handles[h.value].started ==>
      r.log == w.log + StopTrace(w.handles[h.value])
    // ... both slots cleared whoever registered them, the output callback kept ...
    ensures h.Some? && w.handles[h.value].started ==>
      && r.g.tcp == None
      && r.g.udp == None
      && r.g.output == w.g.output
    // ... its own stack and device closed once more, no other counter moved ...
    ensures h.Some? && w.handles[h.value].started ==>
      && (forall s: StackId :: Lookup(r.g.stackCloses, s)
                      == Lookup(w.g.stackCloses, s) + (if w.handles[h.value].stack == Some(s) then 1 else 0))
      && (forall d: DevId :: Lookup(r.g.devCloses, d)
                      == Lookup(w.g.devCloses, d) + (if w.handles[h.value].dev == Some(d) then 1 else 0))
    // ... and the handle marked stopped, every other handle untouched.
    ensures h.Some? && w.handles[h.value].started ==>
      && r.handles == w.handles[h.value := w.handles[h.value].(started := false)]
      && r.nextStack == w.nextStack
      && r.nextDev == w.nextDev
  {
    if h.None? || !w.handles[h.value].started then
      w
    else
      var hd := w.handles[h.value];
      var w1 := Do(Do(w, ClearTcp), ClearUdp);
      var w2 := if hd.stack.Some? then Do(w1, CloseStack(hd.stack.value)) else w1;
      var w3 := if hd.dev.Some? then Do(w2, CloseDev(hd.dev.value)) else w2;
      w3.(handles := w3.handles[h.value := hd.(started := false)])
  }
}

# Tunnel lifecycle manager of go-tun2socks' mobile binding, in Dafny

`mobile/mobile.go` exposes two calls to an Android host application.
`StartSocksTunnel(fd, host, port)` wires a TUN file descriptor to a SOCKS5 proxy:
- it checks the endpoint;
- it wraps the descriptor into a file;
- it creates the lwIP stack and registers the output callback that writes to the device;
- it registers the TCP and UDP SOCKS handlers in the process-wide slots of the `core` package;
- it spawns the relay goroutine and returns a `TunnelHandle` with `started = true`.

`StopTunnel(h)` does nothing for a nil or stopped handle. Otherwise it clears both handler slots, closes the stack and then the device, and marks the handle stopped.

This project models that code as a pure state machine over a `World`:

- `Core.Globals` is the state of the process that the stack library owns. It holds the TCP handler slot, the UDP handler slot and the output-callback slot. It also holds one close counter per stack and one per device.
- `Core.Effect` is one observable side effect. The effects are `CreateStack`, `RegisterOutput`, `SetTcp`, `SetUdp`, `SpawnRelay`, `ClearTcp`, `ClearUdp`, `CloseStack` and `CloseDev`. A world keeps the ordered log of every effect issued.
- `Core.Replay` is the reference semantics of a log: the state reached by replaying it from a pristine process.
- `Mobile.Handle` is `TunnelHandle`. Go pointers to handles are indices into the world's handle heap, and nil is `None`. This lets repeated `StopTunnel` calls on the same pointer see each other's updates.
- `Mobile.StartSocksTunnel` and `Mobile.StopTunnel` are the two calls, written as pure transition functions. Every global mutation goes through `Mobile.Do`, which applies the effect and appends it to the log.
- `Lifecycle` defines the calls a host can make in any order. It proves an invariant that every call keeps. It also proves idempotence, exactly-once teardown and the consequences of the process-wide slots.

The stack, the SOCKS handlers, `os.NewFile` and the relay goroutine are opaque:
- stacks and devices are fresh identities taken from two counters;
- a handler is the value it is built from: host, port and, for UDP, the session timeout;
- whether `os.NewFile` accepts the descriptor is a parameter (`wrapOk`) that the model does not decide;
- the relay goroutine is the single event `SpawnRelay(stack, dev, 1500)`.

Integers are unbounded. Go's `uint16(port)` is modelled by `Base.Narrow`, which keeps the low 16 bits. That matches Go on both 32-bit and 64-bit `int`. The model proves that this conversion loses nothing for every port that passes the endpoint check.

Some behaviour of the code is worth stating plainly, because the model keeps it:
- `dialTimeout` (5 s) is declared at mobile/mobile.go:57 and never passed to either handler. The TCP handler gets no timeout, and the UDP handler gets only the 60-second `udpTimeout`. So `Core.TcpHandler` has no timeout field.
- `StopTunnel` skips closing a nil stack or a nil device (mobile/mobile.go:91, 96). The model keeps both checks (`Mobile.StopTrace`).
- `StopTunnel` never unregisters the output callback. After a stop the output slot still names the closed device (`Lifecycle.StartThenStopsClosesOnce`).
- The comment at mobile/mobile.go:79-80 tells the caller to close its fd after `StopTunnel`. `StopTunnel` already closes the device built on that fd. The Kotlin side is not part of this model.

## Model

| member | source | states |
|---|---|---|
| Base.Narrow | mobile/mobile.go:61-62 | `uint16(port)` is the 16-bit value congruent to `port` modulo 2^16 |
| Base.NarrowLosslessIff | mobile/mobile.go:37-39 | the conversion returns the port unchanged exactly when the port lies in [0, 65535], so the endpoint check makes it lossless |
| Mobile.StartSocksTunnel | mobile/mobile.go:36-76 | errors exactly for an empty host, a port outside [1, 65535] or an unwrappable descriptor; an error leaves the world untouched (no effect, slot or handle); on success: create the stack, register the output callback to the new device, set TCP then UDP handlers for exactly this host and port (UDP with the 60 s timeout), spawn the relay; the new handle is started and owns the fresh stack and device; nothing is closed |
| Mobile.StopTunnel | mobile/mobile.go:81-101 | nil or stopped handle: the world is unchanged; started handle: ClearTcp, ClearUdp, CloseStack (if any stack), CloseDev (if any device), in that order; both slots end empty; the output callback is kept; only this handle's stack and device counters grow, by one each; only this handle changes, to `started = false` |
| Core.ReplayCountsStackCloses | mobile/mobile.go:90-93 | a stack's close counter always equals the number of its closes in the effect log |
| Core.ReplayCountsDevCloses | mobile/mobile.go:95-98 | a device's close counter always equals the number of its closes in the effect log |
| Lifecycle.StartPreservesInv | mobile/mobile.go:36-76 | a start keeps the invariant: state equals the replayed log, handles own distinct, allocated resources, a started handle's resources are still open, nothing is closed twice |
| Lifecycle.StopPreservesInv | mobile/mobile.go:81-101 | a stop keeps the same invariant |
| Lifecycle.StepPreservesInv | mobile/mobile.go:36-101 | any possible call keeps the invariant |
| Lifecycle.RunPreservesInv | mobile/mobile.go:36-101 | any sequence of possible calls keeps the invariant |
| Lifecycle.NoDoubleClose | mobile/mobile.go:82-100 | from a fresh process, whatever the calls, every stack and every device is closed at most once in the log |
| Lifecycle.StopIdempotent | mobile/mobile.go:82-84 | a second `StopTunnel` on the same pointer changes nothing |
| Lifecycle.StopRepeatedlyIsStopOnce | mobile/mobile.go:82-100 | `StopTunnel` called n >= 1 times on one pointer equals one call |
| Lifecycle.StartThenStopsClosesOnce | mobile/mobile.go:36-101 | after a successful start and one or more stops, the new stack and device are each closed exactly once in the whole log; the teardown follows the start trace directly; the handle is stopped; both slots are empty; the output slot still names the device |
| Lifecycle.StopClearsReplacedHandlers | mobile/mobile.go:64-88 | in a well-formed process, starting tunnel B after tunnel A replaces both TCP and UDP handlers with B's; stopping A then empties both slots although B stays started and B's stack and device are never closed |
| Lifecycle.StepTracksHandle | mobile/mobile.go:36-101 | any one call leaves a handle's stack and device as they were; it stops the handle, and closes that stack and device once each, exactly when the call is a stop of that handle made while the handle is started; any other call leaves those close counters alone |
| Lifecycle.RunTracksHandle | mobile/mobile.go:36-101 | across any call sequence, a handle ends started exactly when it started so and no call stopped it; its stack and device end closed once if it was stopped while started, and are otherwise unchanged |
| Lifecycle.StoppedInRunClosesOnce | mobile/mobile.go:82-100 | a started handle that is stopped somewhere in any call sequence (with other starts, stops and repeated stops in between) ends stopped, with its stack and its device each closed exactly once in the whole log |

## Left out

- The relay goroutine (`io.CopyBuffer` through a 1500-byte buffer, mobile/mobile.go:67-73) is a concurrent blocking I/O loop. Only its spawn is modelled, as one event.
- `os.NewFile` and Android descriptor semantics: wrapping is modelled as success or failure given by a parameter.
- The lwIP stack (`core.NewLWIPStack`, the packet path behind `RegisterOutputFn`) and the SOCKS5 handlers (dialing, per-flow relay) belong to other libraries. Handlers are modelled as the values they are built from.
- Timeouts are integers of nanoseconds (`time.Duration`). No clock is modelled.
- Errors returned by `Close()` are ignored by the code. Closes are modelled as infallible events.
- The error messages' text (`fmt.Errorf`) is modelled as structured errors `InvalidEndpoint(host, port)` and `BadDescriptor(fd)`.
- Logging, the gomobile/Kotlin binding and the unused `SocksConfig` type are not modelled.
- Descriptors are not tracked. A device is one wrapped file (`*os.File`), and each start wraps a new one, even for a descriptor already in use. `Lifecycle.NoDoubleClose` and the exactly-once lemmas therefore hold per wrapped file, not per descriptor. Two started tunnels on the same descriptor, both stopped, close that descriptor twice, and the model does not exclude this.
- Concurrency between calls is not modelled. Calls are sequential, so "`started` is set false only after the teardown effects" is stated as the final state of one call, not as an interleaving.
